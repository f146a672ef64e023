/**
 * What happens to one request on its way from the page through the route
 * handler to the store and back into the page's list, over the in-memory store.
 */
module EndToEnd {
  import opened Wire
  import opened SavedObjects
  import opened TodoServer
  import opened JsStrings
  import opened TodoClient

  /**
   * The add button with a non-blank draft: the store receives the trimmed text
   * with `completed: false`, and the page appends an uncompleted item with the
   * id the store assigned.
   */
  lemma AddFlow(objects: seq<Envelope>, list: seq<ClientItem>, draft: string)
    requires exists k :: 0 <= k < |draft| && !IsSpace(draft[k])
    ensures var text := AddGuard(draft).value;
            var stored := CreateAttributes(text);
            var after := Appended(list, Envelope(FreshId(objects), stored));
            text == Trim(draft) && text != [] &&
            stored == Attributes(text, Some(false)) &&
            after[..|list|] == list &&
            after[|list|] == ClientItem(FreshId(objects), text, Some(false)) &&
            !Controls(after[|list|]).completeDisabled
  {
  }

  /**
   * Complete on a stored item: the handler passes `completed: true` on, the
   * store then holds the item completed, and every page item with that id
   * becomes the completed item, read-only and with its Complete button disabled.
   */
  lemma CompleteFlow(objects: seq<Envelope>, list: seq<ClientItem>, id: string, item: string)
    requires DistinctIds(objects) && HasId(objects, id)
    ensures var patch := UpdateAttributes(item, Some(true));
            var answer := UpdateAnswer(objects, id, patch);
            var after := ReplaceById(list, id, FromEnvelope(answer.value));
            answer.Ok? &&
            Lookup(Updated(objects, id, patch), id) == Ok(Envelope(id, Attributes(item, Some(true)))) &&
            |after| == |list| &&
            forall i :: 0 <= i < |list| ==>
              if list[i].id == id then
                after[i] == ClientItem(id, item, Some(true)) &&
                Controls(after[i]).textReadOnly && Controls(after[i]).completeDisabled
              else after[i] == list[i]
  {
    LookupUpdated(objects, id, UpdateAttributes(item, Some(true)));
  }

  /**
   * A text edit of an item the store holds as completed: the store keeps it
   * completed, yet the page's copy loses `completed` and shows the item as
   * editable and completable.
   */
  lemma TextEditFlow(objects: seq<Envelope>, list: seq<ClientItem>, id: string, item: string)
    requires DistinctIds(objects) && HasId(objects, id)
    requires Truthy(Lookup(objects, id).value.attributes.completed)
    ensures var patch := UpdateAttributes(item, None);
            var answer := UpdateAnswer(objects, id, patch);
            var after := ReplaceById(list, id, TextEdited(answer.value));
            answer == Ok(Envelope(id, Attributes(item, None))) &&
            Lookup(Updated(objects, id, patch), id) == Ok(Envelope(id, Attributes(item, Some(true)))) &&
            forall i :: 0 <= i < |list| && list[i].id == id ==>
              after[i] == ClientItem(id, item, None) && !Controls(after[i]).textReadOnly
  {
    LookupUpdated(objects, id, UpdateAttributes(item, None));
  }

  /** With completed items hidden, the page loads no item it would show as completed. */
  lemma HiddenListLoadsNoCompleted(objects: seq<Envelope>)
    ensures var page := Loaded(ListBody(true, objects));
            forall i :: 0 <= i < |page| ==>
              page[i].completed == Some(false) && !Controls(page[i]).completeDisabled
  {
    var body := ListBody(true, objects);
    assert forall i :: 0 <= i < |body| ==> body[i] in body;
  }
}
