/**
 * The saved-objects store the todo route handlers call. Its real behaviour
 * belongs to the host platform; this module fixes one in-memory behaviour for it
 * so that the handlers' effects can be stated:
 *  - objects are kept in creation order, ids pairwise distinct;
 *  - `get`, `update` and `delete` of an unknown id fail with NotFound;
 *  - `update` merges the sent attributes into the stored ones (an attribute not
 *    sent keeps its stored value) and answers with the id and the SENT attributes;
 *  - `create` assigns an id that no stored object has.
 * Every call a handler makes is recorded in the ghost log `sent`.
 */
module SavedObjects {
  import opened Wire

  /** One call made on the store, with what was sent. */
  datatype StoreCall =
    | FindCall
    | GetCall(id: string)
    | CreateCall(attributes: Attributes)
    | UpdateCall(id: string, attributes: Attributes)
    | DeleteCall(id: string)

  predicate HasId(objects: seq<Envelope>, id: string) {
    exists i :: 0 <= i < |objects| && objects[i].id == id
  }

  predicate DistinctIds(objects: seq<Envelope>) {
    forall i, j :: 0 <= i < j < |objects| ==> objects[i].id != objects[j].id
  }

  /** The object with the given id, or NotFound. */
  function Lookup(objects: seq<Envelope>, id: string): (r: Result<Envelope, StoreError>)
    ensures r.Ok? <==> HasId(objects, id)
    ensures r.Ok? ==> r.value in objects && r.value.id == id
    ensures r.Err? ==> r.error == NotFound(id)
  {
    if objects == [] then Err(NotFound(id))
    else if objects[0].id == id then Ok(objects[0])
    else
      assert HasId(objects, id) ==> HasId(objects[1..], id) by {
        if HasId(objects, id) {
          var i :| 0 <= i < |objects| && objects[i].id == id;
          assert objects[1..][i - 1].id == id;
        }
      }
      var r := Lookup(objects[1..], id);
      assert r.Ok? ==> HasId(objects, id) by {
        if r.Ok? {
          var i :| 0 <= i < |objects[1..]| && objects[1..][i].id == id;
          assert objects[i + 1].id == id;
        }
      }
      r
  }

  /** The length of the longest stored id. */
  function LongestId(objects: seq<Envelope>): (n: nat)
    ensures forall e :: e in objects ==> |e.id| <= n
  {
    if objects == [] then 0
    else
      var m := LongestId(objects[1..]);
      if |objects[0].id| > m then |objects[0].id| else m
  }

  /** The id `create` assigns: longer than every stored id, so unused. */
  function FreshId(objects: seq<Envelope>): (id: string)
    ensures id != []
    ensures !HasId(objects, id)
  {
    var id := seq(LongestId(objects) + 1, _ => '#');
    assert forall i :: 0 <= i < |objects| ==> objects[i] in objects;
    id
  }

  /** Stored attributes after an update that sent `patch`. */
  function Merge(current: Attributes, patch: Attributes): Attributes {
    Attributes(patch.item, if patch.completed.Some? then patch.completed else current.completed)
  }

  /** The table after `update(id, patch)`. */
  function Updated(objects: seq<Envelope>, id: string, patch: Attributes): (r: seq<Envelope>)
    ensures |r| == |objects|
    ensures forall i :: 0 <= i < |objects| ==> r[i].id == objects[i].id
    ensures forall i :: 0 <= i < |objects| ==>
      r[i].attributes == if objects[i].id == id then Merge(objects[i].attributes, patch) else objects[i].attributes
  {
    if objects == [] then []
    else
      var e := objects[0];
      var e' := if e.id == id then Envelope(id, Merge(e.attributes, patch)) else e;
      [e'] + Updated(objects[1..], id, patch)
  }

  /** Number of stored objects with the given id. */
  function IdCount(objects: seq<Envelope>, id: string): (n: nat)
    ensures n <= |objects|
  {
    if objects == [] then 0 else (if objects[0].id == id then 1 else 0) + IdCount(objects[1..], id)
  }

  /** The table after `delete(id)`. */
  function Without(objects: seq<Envelope>, id: string): (r: seq<Envelope>)
    ensures forall e :: e in r <==> e in objects && e.id != id
    ensures |r| == |objects| - IdCount(objects, id)
    ensures SubsequenceOf(r, objects)
  {
    if objects == [] then []
    else
      var rest := Without(objects[1..], id);
      assert [objects[0]] + objects[1..] == objects;
      if objects[0].id == id then
        SubsequenceSkip(rest, objects[0], objects[1..]);
        rest
      else
        SubsequenceCons(rest, objects[0], objects[1..]);
        [objects[0]] + rest
  }

  function UpdateAnswer(objects: seq<Envelope>, id: string, patch: Attributes): Result<Envelope, StoreError> {
    if HasId(objects, id) then Ok(Envelope(id, patch)) else Err(NotFound(id))
  }

  function DeleteAnswer(objects: seq<Envelope>, id: string): Result<Ack, StoreError> {
    if HasId(objects, id) then Ok(Ack) else Err(NotFound(id))
  }

  /** Updating keeps the ids, hence their distinctness. */
  lemma UpdatedKeepsDistinct(objects: seq<Envelope>, id: string, patch: Attributes)
    requires DistinctIds(objects)
    ensures DistinctIds(Updated(objects, id, patch))
  {
  }

  /** Deleting keeps the remaining ids distinct. */
  lemma {:induction false} WithoutKeepsDistinct(objects: seq<Envelope>, id: string)
    requires DistinctIds(objects)
    ensures DistinctIds(Without(objects, id))
  {
    if objects != [] {
      var rest := objects[1..];
      assert DistinctIds(rest) by {
        forall i, j | 0 <= i < j < |rest| ensures rest[i].id != rest[j].id {
          assert rest[i] == objects[i + 1] && rest[j] == objects[j + 1];
        }
      }
      WithoutKeepsDistinct(rest, id);
      var w := Without(rest, id);
      if objects[0].id != id {
        forall k | 0 <= k < |w| ensures w[k].id != objects[0].id {
          assert w[k] in rest;
          var j :| 0 <= j < |rest| && rest[j] == w[k];
          assert objects[j + 1] == w[k];
        }
        var r := [objects[0]] + w;
        forall i, j | 0 <= i < j < |r| ensures r[i].id != r[j].id {
          if i > 0 { assert r[i] == w[i - 1] && r[j] == w[j - 1]; }
          else { assert r[j] == w[j - 1]; }
        }
      }
    }
  }

  /** Appending an object whose id is unused keeps the ids distinct. */
  lemma AppendKeepsDistinct(objects: seq<Envelope>, e: Envelope)
    requires DistinctIds(objects) && !HasId(objects, e.id)
    ensures DistinctIds(objects + [e])
  {
    var r := objects + [e];
    forall i, j | 0 <= i < j < |r| ensures r[i].id != r[j].id {
      if j < |objects| { assert r[i] == objects[i] && r[j] == objects[j]; }
      else { assert r[i] == objects[i]; }
    }
  }

  /** In a table with distinct ids, Lookup finds the one object with that id. */
  lemma LookupUnique(objects: seq<Envelope>, e: Envelope)
    requires DistinctIds(objects) && e in objects
    ensures Lookup(objects, e.id) == Ok(e)
  {
    var r := Lookup(objects, e.id);
    var i :| 0 <= i < |objects| && objects[i] == e;
    var j :| 0 <= j < |objects| && objects[j] == r.value;
    assert i == j;
  }

  /** An update of a stored id is seen by the next get, merged into what was stored. */
  lemma LookupUpdated(objects: seq<Envelope>, id: string, patch: Attributes)
    requires DistinctIds(objects) && HasId(objects, id)
    ensures Lookup(Updated(objects, id, patch), id) ==
            Ok(Envelope(id, Merge(Lookup(objects, id).value.attributes, patch)))
  {
    var e := Lookup(objects, id).value;
    var i :| 0 <= i < |objects| && objects[i] == e;
    var after := Updated(objects, id, patch);
    UpdatedKeepsDistinct(objects, id, patch);
    assert after[i] == Envelope(id, Merge(e.attributes, patch));
    LookupUnique(after, after[i]);
  }

  /**
   * The in-memory store. `objects` is the table; `sent` records every call
   * made on it, in order.
   */
  class SavedObjectsClient {
    var objects: seq<Envelope>
    ghost var sent: seq<StoreCall>

    ghost predicate Valid()
      reads this
    {
      DistinctIds(objects)
    }

    constructor ()
      ensures Valid() && objects == [] && sent == []
    {
      objects := [];
      sent := [];
    }

    method Find() returns (found: seq<Envelope>)
      modifies this`sent
      ensures found == objects
      ensures sent == old(sent) + [FindCall]
    {
      found := objects;
      sent := sent + [FindCall];
    }

    method Get(id: string) returns (r: Result<Envelope, StoreError>)
      modifies this`sent
      ensures r == Lookup(objects, id)
      ensures sent == old(sent) + [GetCall(id)]
    {
      r := Lookup(objects, id);
      sent := sent + [GetCall(id)];
    }

    method Create(attributes: Attributes) returns (r: Result<Envelope, StoreError>)
      requires Valid()
      modifies this
      ensures Valid()
      ensures r == Ok(Envelope(FreshId(old(objects)), attributes))
      ensures objects == old(objects) + [r.value]
      ensures sent == old(sent) + [CreateCall(attributes)]
    {
      var e := Envelope(FreshId(objects), attributes);
      AppendKeepsDistinct(objects, e);
      objects := objects + [e];
      sent := sent + [CreateCall(attributes)];
      r := Ok(e);
    }

    method Update(id: string, patch: Attributes) returns (r: Result<Envelope, StoreError>)
      requires Valid()
      modifies this
      ensures Valid()
      ensures r == UpdateAnswer(old(objects), id, patch)
      ensures objects == Updated(old(objects), id, patch)
      ensures sent == old(sent) + [UpdateCall(id, patch)]
    {
      r := UpdateAnswer(objects, id, patch);
      UpdatedKeepsDistinct(objects, id, patch);
      objects := Updated(objects, id, patch);
      sent := sent + [UpdateCall(id, patch)];
    }

    method Delete(id: string) returns (r: Result<Ack, StoreError>)
      requires Valid()
      modifies this
      ensures Valid()
      ensures r == DeleteAnswer(old(objects), id)
      ensures objects == Without(old(objects), id)
      ensures sent == old(sent) + [DeleteCall(id)]
    {
      r := DeleteAnswer(objects, id);
      WithoutKeepsDistinct(objects, id);
      objects := Without(objects, id);
      sent := sent + [DeleteCall(id)];
    }
  }
}
