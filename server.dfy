/**
 * The five route handlers of the todo server plugin: each turns a request into
 * one call on the saved-objects store and the store's answer into a response
 * body. A store failure is not caught by any handler, so it becomes the
 * handler's own failure; `Result` carries it.
 */
module TodoServer {
  import opened Wire
  import opened SavedObjects

  /** Registered default of the `hide_completed_items` setting. */
  const HideCompletedDefault := false

  /** The settings service, as far as the list handler reads it. */
  class UiSettings {
    var hideCompletedItems: bool

    constructor ()
      ensures hideCompletedItems == HideCompletedDefault
    {
      hideCompletedItems := HideCompletedDefault;
    }
  }

  // ---------------------------------------------------------------------------
  // List: filter on `attributes.completed === false`

  /** The found objects whose `completed` is exactly `false`, in their order. */
  function Incomplete(todos: seq<Envelope>): (r: seq<Envelope>)
    ensures forall e :: e in r <==> e in todos && e.attributes.completed == Some(false)
    ensures |r| <= |todos|
  {
    if todos == [] then []
    else if todos[0].attributes.completed == Some(false) then [todos[0]] + Incomplete(todos[1..])
    else Incomplete(todos[1..])
  }

  /** The filter keeps the relative order of what it keeps. */
  lemma {:induction false} IncompleteIsSubsequence(todos: seq<Envelope>)
    ensures SubsequenceOf(Incomplete(todos), todos)
  {
    if todos != [] {
      var x, rest := todos[0], todos[1..];
      assert [x] + rest == todos;
      IncompleteIsSubsequence(rest);
      if x.attributes.completed == Some(false) {
        SubsequenceCons(Incomplete(rest), x, rest);
      } else {
        SubsequenceSkip(Incomplete(rest), x, rest);
      }
    }
  }

  /** Every kept object is kept as often as it was found; the others not at all. */
  lemma {:induction false} IncompleteMultiplicity(todos: seq<Envelope>, e: Envelope)
    ensures multiset(Incomplete(todos))[e] ==
            if e.attributes.completed == Some(false) then multiset(todos)[e] else 0
  {
    if todos != [] {
      var x, rest := todos[0], todos[1..];
      assert todos == [x] + rest;
      IncompleteMultiplicity(rest, e);
      if x.attributes.completed == Some(false) {
        assert Incomplete(todos) == [x] + Incomplete(rest);
      }
    }
  }

  /**
   * The body of `GET /api/todos`: the found objects when completed items are
   * shown, otherwise only those whose `completed` is exactly `false` (an object
   * without `completed` is dropped too), in the order found.
   */
  function ListBody(hideCompleted: bool, found: seq<Envelope>): (body: seq<Envelope>)
    ensures !hideCompleted ==> body == found
    ensures hideCompleted ==>
      forall e :: e in body <==> e in found && e.attributes.completed == Some(false)
    ensures hideCompleted ==> SubsequenceOf(body, found)
    ensures hideCompleted ==>
      forall e :: multiset(body)[e] == (if e.attributes.completed == Some(false) then multiset(found)[e] else 0)
  {
    if hideCompleted then
      IncompleteIsSubsequence(found);
      assert forall e ::
        multiset(Incomplete(found))[e] == (if e.attributes.completed == Some(false) then multiset(found)[e] else 0)
      by {
        forall e ensures multiset(Incomplete(found))[e] ==
          (if e.attributes.completed == Some(false) then multiset(found)[e] else 0) {
          IncompleteMultiplicity(found, e);
        }
      }
      Incomplete(found)
    else
      found
  }

  // ---------------------------------------------------------------------------
  // Attributes sent by create and update

  /** What `POST /api/todos` stores for `{item}`: the text, and a flag that is present and not set. */
  function CreateAttributes(item: string): (a: Attributes)
    ensures a.item == item
    ensures a.completed.Some? && !Truthy(a.completed)
  {
    Attributes(item, Some(false))
  }

  /**
   * What `PUT /api/todos/{id}` sends to the store for `{item, completed?}`:
   * `completed` goes along only when it is truthy.
   */
  function UpdateAttributes(item: string, completed: Option<bool>): (patch: Attributes)
    ensures patch.item == item
    ensures patch.completed.Some? <==> Truthy(completed)
    ensures patch.completed != Some(false)
    ensures patch.completed.Some? ==> patch.completed == completed
  {
    if Truthy(completed) then Attributes(item, completed) else Attributes(item, None)
  }

  /** The delete response: `{success: true, deleted}`, or the store's failure unchanged. */
  function DeleteResponse(deleted: Result<Ack, StoreError>): (r: Result<DeleteBody, StoreError>)
    ensures r.Ok? <==> deleted.Ok?
    ensures r.Ok? ==> r.value.success && r.value.deleted == deleted.value
    ensures r.Err? ==> r.error == deleted.error
  {
    match deleted
    case Ok(ack) => Ok(DeleteBody(true, ack))
    case Err(e) => Err(e)
  }

  // ---------------------------------------------------------------------------
  // Every stored todo has a `completed` flag

  /** Every object in the table carries `completed`. */
  predicate AllHaveCompleted(objects: seq<Envelope>) {
    forall e :: e in objects ==> e.attributes.completed.Some?
  }

  /** Creating through the handler adds an object that carries `completed`. */
  lemma CreateKeepsCompleted(objects: seq<Envelope>, item: string)
    requires AllHaveCompleted(objects)
    ensures AllHaveCompleted(objects + [Envelope(FreshId(objects), CreateAttributes(item))])
  {
  }

  /** An update never removes a stored `completed`, whatever attributes it sends. */
  lemma UpdateKeepsCompleted(objects: seq<Envelope>, id: string, patch: Attributes)
    requires AllHaveCompleted(objects)
    ensures AllHaveCompleted(Updated(objects, id, patch))
  {
    var after := Updated(objects, id, patch);
    forall e | e in after ensures e.attributes.completed.Some? {
      var i :| 0 <= i < |after| && after[i] == e;
      assert objects[i] in objects;
    }
  }

  /** A delete only removes objects. */
  lemma DeleteKeepsCompleted(objects: seq<Envelope>, id: string)
    requires AllHaveCompleted(objects)
    ensures AllHaveCompleted(Without(objects, id))
  {
  }

  // ---------------------------------------------------------------------------
  // The handlers

  /** `GET /api/todos` */
  method ListTodos(settings: UiSettings, store: SavedObjectsClient) returns (body: seq<Envelope>)
    modifies store`sent
    ensures store.objects == old(store.objects)
    ensures store.sent == old(store.sent) + [FindCall]
    ensures body == ListBody(settings.hideCompletedItems, store.objects)
  {
    var hideCompleted := settings.hideCompletedItems;
    var todos := store.Find();
    if hideCompleted {
      todos := Incomplete(todos);
    }
    body := todos;
  }

  /** `GET /api/todos/{id}` */
  method GetTodo(store: SavedObjectsClient, id: string) returns (r: Result<Envelope, StoreError>)
    modifies store`sent
    ensures store.objects == old(store.objects)
    ensures store.sent == old(store.sent) + [GetCall(id)]
    ensures r == Lookup(store.objects, id)
  {
    r := store.Get(id);
  }

  /** `POST /api/todos` with body `{item}` */
  method CreateTodo(store: SavedObjectsClient, item: string) returns (r: Result<Envelope, StoreError>)
    requires store.Valid()
    modifies store
    ensures store.Valid()
    ensures store.sent == old(store.sent) + [CreateCall(Attributes(item, Some(false)))]
    ensures r == Ok(Envelope(FreshId(old(store.objects)), Attributes(item, Some(false))))
    ensures store.objects == old(store.objects) + [r.value]
    ensures AllHaveCompleted(old(store.objects)) ==> AllHaveCompleted(store.objects)
  {
    r := store.Create(CreateAttributes(item));
    if AllHaveCompleted(old(store.objects)) {
      CreateKeepsCompleted(old(store.objects), item);
    }
  }

  /** `PUT /api/todos/{id}` with body `{item, completed?}` */
  method UpdateTodo(store: SavedObjectsClient, id: string, item: string, completed: Option<bool>)
    returns (r: Result<Envelope, StoreError>)
    requires store.Valid()
    modifies store
    ensures store.Valid()
    ensures store.sent == old(store.sent) + [UpdateCall(id, UpdateAttributes(item, completed))]
    ensures r == UpdateAnswer(old(store.objects), id, UpdateAttributes(item, completed))
    ensures store.objects == Updated(old(store.objects), id, UpdateAttributes(item, completed))
    ensures AllHaveCompleted(old(store.objects)) ==> AllHaveCompleted(store.objects)
  {
    if AllHaveCompleted(store.objects) {
      UpdateKeepsCompleted(store.objects, id, UpdateAttributes(item, completed));
    }
    if Truthy(completed) {
      r := store.Update(id, Attributes(item, completed));
    } else {
      r := store.Update(id, Attributes(item, None));
    }
  }

  /** `DELETE /api/todos/{id}` */
  method DeleteTodo(store: SavedObjectsClient, id: string) returns (r: Result<DeleteBody, StoreError>)
    requires store.Valid()
    modifies store
    ensures store.Valid()
    ensures store.sent == old(store.sent) + [DeleteCall(id)]
    ensures r == DeleteResponse(DeleteAnswer(old(store.objects), id))
    ensures store.objects == Without(old(store.objects), id)
    ensures AllHaveCompleted(old(store.objects)) ==> AllHaveCompleted(store.objects)
  {
    if AllHaveCompleted(store.objects) {
      DeleteKeepsCompleted(store.objects, id);
    }
    var deleted := store.Delete(id);
    r := DeleteResponse(deleted);
  }

  // ---------------------------------------------------------------------------
  // Properties of handler sequences, over the in-memory store

  /** Create then get by the returned id gives back `{item, completed: false}`. */
  lemma CreateThenGet(objects: seq<Envelope>, item: string)
    ensures var created := Envelope(FreshId(objects), CreateAttributes(item));
            Lookup(objects + [created], created.id) == Ok(created) &&
            created.attributes == Attributes(item, Some(false))
  {
    var created := Envelope(FreshId(objects), CreateAttributes(item));
    assert (objects + [created])[|objects|] == created;
  }

  /**
   * After deleting `id`, get of `id` is not found, no list shows it, and every
   * other id is looked up as before.
   */
  lemma DeleteThenGet(objects: seq<Envelope>, id: string, other: string, hideCompleted: bool)
    requires DistinctIds(objects)
    requires other != id
    ensures Lookup(Without(objects, id), id) == Err(NotFound(id))
    ensures forall e :: e in ListBody(hideCompleted, Without(objects, id)) ==> e.id != id
    ensures Lookup(Without(objects, id), other) == Lookup(objects, other)
  {
    var w := Without(objects, id);
    WithoutKeepsDistinct(objects, id);
    var r := Lookup(objects, other);
    if r.Ok? {
      LookupUnique(w, r.value);
    }
  }

  /** Deleting twice: the second delete surfaces NotFound and changes nothing. */
  lemma {:induction false} DeleteTwice(objects: seq<Envelope>, id: string)
    ensures DeleteResponse(DeleteAnswer(Without(objects, id), id)) == Err(NotFound(id))
    ensures Without(Without(objects, id), id) == Without(objects, id)
  {
    assert !HasId(Without(objects, id), id) by {
      if HasId(Without(objects, id), id) {
        var i :| 0 <= i < |Without(objects, id)| && Without(objects, id)[i].id == id;
        assert Without(objects, id)[i] in Without(objects, id);
      }
    }
    if objects != [] {
      DeleteTwice(objects[1..], id);
    }
  }

  /**
   * Marking an existing item completed hides it from the list when completed
   * items are hidden, and keeps it listed when they are shown.
   */
  lemma CompleteThenList(objects: seq<Envelope>, id: string, item: string)
    requires HasId(objects, id)
    ensures var after := Updated(objects, id, UpdateAttributes(item, Some(true)));
            (forall e :: e in ListBody(true, after) ==> e.id != id) &&
            HasId(ListBody(false, after), id)
  {
    var after := Updated(objects, id, UpdateAttributes(item, Some(true)));
    forall e | e in ListBody(true, after) ensures e.id != id {
      var i :| 0 <= i < |after| && after[i] == e;
    }
    var i :| 0 <= i < |objects| && objects[i].id == id;
    assert after[i].id == id;
  }

  /**
   * No update request clears the flag: an object stored as completed is still
   * completed after any update, and an update never stores `completed: false`
   * where it was not stored before.
   */
  lemma UpdateNeverClearsCompleted(objects: seq<Envelope>, id: string, item: string, completed: Option<bool>)
    ensures var after := Updated(objects, id, UpdateAttributes(item, completed));
            forall i :: 0 <= i < |objects| ==>
              (Truthy(objects[i].attributes.completed) ==> Truthy(after[i].attributes.completed)) &&
              (after[i].attributes.completed == Some(false) ==> objects[i].attributes.completed == Some(false))
  {
  }
}
