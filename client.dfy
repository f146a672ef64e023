/**
 * The todo page's state: the list of items shown and the draft of a new item.
 * Every handler sends one request and, once the response arrives, replaces the
 * list by a transformation of it. A rejected request throws before the list is
 * replaced, and nothing catches it, so the list stays as it was.
 */
module TodoClient {
  import opened Wire
  import opened JsStrings

  /** An item as the page holds it; `completed` is missing after a text edit. */
  datatype ClientItem = ClientItem(id: string, item: string, completed: Option<bool>)

  /** The page's item for an envelope: its id, text and flag, nothing dropped. */
  function FromEnvelope(e: Envelope): (t: ClientItem)
    ensures t.id == e.id && t.item == e.attributes.item && t.completed == e.attributes.completed
    ensures ToEnvelope(t) == e
  {
    ClientItem(e.id, e.attributes.item, e.attributes.completed)
  }

  /** The envelope that an item was built from. */
  function ToEnvelope(t: ClientItem): Envelope {
    Envelope(t.id, Attributes(t.item, t.completed))
  }

  // ---------------------------------------------------------------------------
  // Transformations of the list

  /** The list built from the `GET /api/todos` response. */
  function Loaded(response: seq<Envelope>): (items: seq<ClientItem>)
    ensures |items| == |response|
    ensures forall i :: 0 <= i < |response| ==> items[i] == FromEnvelope(response[i])
  {
    if response == [] then [] else [FromEnvelope(response[0])] + Loaded(response[1..])
  }

  /** Loading loses nothing: the response can be rebuilt from the list. */
  lemma LoadedIsLossless(response: seq<Envelope>)
    ensures forall i :: 0 <= i < |response| ==> ToEnvelope(Loaded(response)[i]) == response[i]
  {
  }

  /** Loading distinct responses gives distinct lists. */
  lemma LoadedInjective(a: seq<Envelope>, b: seq<Envelope>)
    requires Loaded(a) == Loaded(b)
    ensures a == b
  {
    LoadedIsLossless(a);
    LoadedIsLossless(b);
    assert forall i :: 0 <= i < |a| ==> a[i] == ToEnvelope(Loaded(a)[i]) == b[i];
  }

  /** The list after an add: the old items, then the created one. */
  function Appended(list: seq<ClientItem>, response: Envelope): (r: seq<ClientItem>)
    ensures |r| == |list| + 1
    ensures r[..|list|] == list
    ensures r[|list|] == FromEnvelope(response)
  {
    list + [FromEnvelope(response)]
  }

  /** The item built from a text-edit response: its id and text, and no flag at all. */
  function TextEdited(response: Envelope): (t: ClientItem)
    ensures t.id == response.id && t.item == response.attributes.item
    ensures t.completed == None
  {
    ClientItem(response.id, response.attributes.item, None)
  }

  /** Each item with the given id replaced by `replacement`; every other item kept in place. */
  function ReplaceById(list: seq<ClientItem>, id: string, replacement: ClientItem): (r: seq<ClientItem>)
    ensures |r| == |list|
    ensures forall i :: 0 <= i < |list| ==> r[i] == if list[i].id == id then replacement else list[i]
  {
    if list == [] then []
    else [if list[0].id == id then replacement else list[0]] + ReplaceById(list[1..], id, replacement)
  }

  /** Number of items with the given id. */
  function CountId(list: seq<ClientItem>, id: string): (n: nat)
    ensures n <= |list|
  {
    if list == [] then 0 else (if list[0].id == id then 1 else 0) + CountId(list[1..], id)
  }

  /** The list without the items that have the given id, the rest in their order. */
  function RemoveById(list: seq<ClientItem>, id: string): (r: seq<ClientItem>)
    ensures forall t :: t in r <==> t in list && t.id != id
    ensures |r| == |list| - CountId(list, id)
    ensures SubsequenceOf(r, list)
  {
    if list == [] then []
    else
      var rest := RemoveById(list[1..], id);
      assert [list[0]] + list[1..] == list;
      if list[0].id == id then
        SubsequenceSkip(rest, list[0], list[1..]);
        rest
      else
        SubsequenceCons(rest, list[0], list[1..]);
        [list[0]] + rest
  }

  /**
   * Replacing the items of one id by an item of that id leaves the others
   * exactly as they were, in the same order.
   */
  lemma {:induction false} ReplaceKeepsOthers(list: seq<ClientItem>, id: string, replacement: ClientItem)
    requires replacement.id == id
    ensures RemoveById(ReplaceById(list, id, replacement), id) == RemoveById(list, id)
  {
    if list != [] {
      ReplaceKeepsOthers(list[1..], id, replacement);
      var r := ReplaceById(list, id, replacement);
      assert r[1..] == ReplaceById(list[1..], id, replacement);
    }
  }

  // ---------------------------------------------------------------------------
  // The add button and the per-item controls

  /** The add button sends `newTodo.trim()` when that is non-empty, and nothing otherwise. */
  function AddGuard(draft: string): (r: Option<string>)
    ensures r.Some? <==> exists k :: 0 <= k < |draft| && !IsSpace(draft[k])
    ensures r.Some? ==> r.value == Trim(draft) && r.value != []
  {
    var t := Trim(draft);
    if t != [] then Some(t) else None
  }

  datatype CompleteLabel = Complete | Completed

  /** How one item is rendered: its text field and its two buttons. */
  datatype ItemControls = ItemControls(
    text: string,
    textReadOnly: bool,
    completeDisabled: bool,
    completeLabel: CompleteLabel,
    deleteOffered: bool)

  /**
   * The text is read-only, and the Complete button is disabled and labelled
   * "Completed", exactly when the item is completed; Delete is always offered.
   */
  function Controls(todo: ClientItem): (c: ItemControls)
    ensures c.text == todo.item
    ensures c.textReadOnly <==> Truthy(todo.completed)
    ensures c.completeDisabled <==> Truthy(todo.completed)
    ensures c.completeLabel == Completed <==> Truthy(todo.completed)
    ensures c.deleteOffered
  {
    var done := Truthy(todo.completed);
    ItemControls(todo.item, done, done, if done then Completed else Complete, true)
  }

  /** After a text edit every edited item is editable and completable again. */
  lemma TextEditUnlocks(list: seq<ClientItem>, id: string, response: Envelope)
    ensures var after := ReplaceById(list, id, TextEdited(response));
            forall i :: 0 <= i < |list| && list[i].id == id ==>
              !Controls(after[i]).textReadOnly && !Controls(after[i]).completeDisabled
  {
  }

  // ---------------------------------------------------------------------------
  // The page

  class ToDoApp {
    var todoList: seq<ClientItem>
    var newTodo: string
    /** The requests sent, in order. */
    ghost var requests: seq<Request>

    constructor ()
      ensures todoList == [] && newTodo == "" && requests == []
    {
      todoList := [];
      newTodo := "";
      requests := [];
    }

    /** The fetch on mount. */
    method FetchData(response: Result<seq<Envelope>, HttpError>)
      modifies this`todoList, this`requests
      ensures requests == old(requests) + [ListRequest]
      ensures todoList == if response.Ok? then Loaded(response.value) else old(todoList)
    {
      requests := requests + [ListRequest];
      if response.Ok? {
        todoList := Loaded(response.value);
      }
    }

    method AddTodoItem(item: string, response: Result<Envelope, HttpError>)
      modifies this`todoList, this`requests
      ensures requests == old(requests) + [CreateRequest(item)]
      ensures todoList == if response.Ok? then Appended(old(todoList), response.value) else old(todoList)
    {
      requests := requests + [CreateRequest(item)];
      if response.Ok? {
        todoList := Appended(todoList, response.value);
      }
    }

    method UpdateTodoItem(id: string, item: string, response: Result<Envelope, HttpError>)
      modifies this`todoList, this`requests
      ensures requests == old(requests) + [UpdateRequest(id, item, None)]
      ensures todoList ==
        if response.Ok? then ReplaceById(old(todoList), id, TextEdited(response.value)) else old(todoList)
    {
      requests := requests + [UpdateRequest(id, item, None)];
      if response.Ok? {
        todoList := ReplaceById(todoList, id, TextEdited(response.value));
      }
    }

    method CompleteTodoItem(id: string, item: string, response: Result<Envelope, HttpError>)
      modifies this`todoList, this`requests
      ensures requests == old(requests) + [UpdateRequest(id, item, Some(true))]
      ensures todoList ==
        if response.Ok? then ReplaceById(old(todoList), id, FromEnvelope(response.value)) else old(todoList)
    {
      requests := requests + [UpdateRequest(id, item, Some(true))];
      if response.Ok? {
        todoList := ReplaceById(todoList, id, FromEnvelope(response.value));
      }
    }

    method DeleteTodoItem(id: string, response: Result<DeleteBody, HttpError>)
      modifies this`todoList, this`requests
      ensures requests == old(requests) + [DeleteRequest(id)]
      ensures todoList == if response.Ok? then RemoveById(old(todoList), id) else old(todoList)
    {
      requests := requests + [DeleteRequest(id)];
      if response.Ok? {
        todoList := RemoveById(todoList, id);
      }
    }

    /** Typing in the new-item field. */
    method ChangeDraft(value: string)
      modifies this`newTodo
      ensures newTodo == value
    {
      newTodo := value;
    }

    /**
     * The add button: with a non-blank draft, sends its trimmed text and clears
     * the draft (whether or not the request succeeds, since the add is not
     * awaited); with a blank draft, does nothing.
     */
    method ClickAdd(response: Result<Envelope, HttpError>)
      modifies this
      ensures var guard := AddGuard(old(newTodo));
        if guard.Some? then
          requests == old(requests) + [CreateRequest(guard.value)] && newTodo == "" &&
          todoList == (if response.Ok? then Appended(old(todoList), response.value) else old(todoList))
        else
          requests == old(requests) && newTodo == old(newTodo) && todoList == old(todoList)
    {
      var guard := AddGuard(newTodo);
      if guard.Some? {
        AddTodoItem(guard.value, response);
        newTodo := "";
      }
    }

    /** Saving the inline editor of the `i`-th item; a read-only editor saves nothing. */
    method SaveEdit(i: nat, value: string, response: Result<Envelope, HttpError>)
      requires i < |todoList|
      modifies this`todoList, this`requests
      ensures var todo := old(todoList[i]);
        if Controls(todo).textReadOnly then
          requests == old(requests) && todoList == old(todoList)
        else
          requests == old(requests) + [UpdateRequest(todo.id, value, None)] &&
          todoList == if response.Ok? then ReplaceById(old(todoList), todo.id, TextEdited(response.value)) else old(todoList)
    {
      var todo := todoList[i];
      if !Controls(todo).textReadOnly {
        UpdateTodoItem(todo.id, value, response);
      }
    }

    /** The Complete button of the `i`-th item; a disabled button does nothing. */
    method ClickComplete(i: nat, response: Result<Envelope, HttpError>)
      requires i < |todoList|
      modifies this`todoList, this`requests
      ensures var todo := old(todoList[i]);
        if Controls(todo).completeDisabled then
          requests == old(requests) && todoList == old(todoList)
        else
          requests == old(requests) + [UpdateRequest(todo.id, todo.item, Some(true))] &&
          todoList == if response.Ok? then ReplaceById(old(todoList), todo.id, FromEnvelope(response.value)) else old(todoList)
    {
      var todo := todoList[i];
      if !Controls(todo).completeDisabled {
        CompleteTodoItem(todo.id, todo.item, response);
      }
    }

    /** The Delete button of the `i`-th item, offered whatever the item's state. */
    method ClickDelete(i: nat, response: Result<DeleteBody, HttpError>)
      requires i < |todoList|
      modifies this`todoList, this`requests
      ensures var todo := old(todoList[i]);
        requests == old(requests) + [DeleteRequest(todo.id)] &&
        todoList == if response.Ok? then RemoveById(old(todoList), todo.id) else old(todoList)
    {
      var todo := todoList[i];
      DeleteTodoItem(todo.id, response);
    }
  }
}
