/**
 * Values exchanged between the todo client, the todo route handlers and the
 * saved-objects store: the envelope `{id, attributes: {item, completed}}`, the
 * requests the client issues, and the failures that can come back.
 */
module Wire {

  datatype Option<+T> = None | Some(value: T)

  datatype Result<+T, +E> = Ok(value: T) | Err(error: E)

  /** JavaScript truthiness of a boolean that may be `undefined`. */
  predicate Truthy(b: Option<bool>) {
    b == Some(true)
  }

  /**
   * The attributes of a `todo` saved object. `completed` is optional: a text-only
   * update sends, and gets back, attributes without it.
   */
  datatype Attributes = Attributes(item: string, completed: Option<bool>)

  /** A saved object as the store returns it: its id and its attributes. */
  datatype Envelope = Envelope(id: string, attributes: Attributes)

  /** What a store call can fail with. */
  datatype StoreError = NotFound(id: string)

  /** What the store's delete resolves to (an empty object). */
  datatype Ack = Ack

  /** Body of the response to `DELETE /api/todos/{id}`. */
  datatype DeleteBody = DeleteBody(success: bool, deleted: Ack)

  /** A rejected HTTP request, as the client's `http` service reports it. */
  datatype HttpError = HttpError(status: nat)

  /**
   * The requests the page sends to `/api/todos`, with their parameters and
   * bodies. The page never fetches a single item, so `GET /api/todos/{id}` has
   * no request here.
   */
  datatype Request =
    | ListRequest
    | CreateRequest(item: string)
    | UpdateRequest(id: string, item: string, completed: Option<bool>)
    | DeleteRequest(id: string)

  /** `r` can be obtained from `s` by dropping elements, keeping the order of the rest. */
  predicate SubsequenceOf<T(==)>(r: seq<T>, s: seq<T>)
    decreases |s|
  {
    if r == [] then true
    else if s == [] then false
    else if r[0] == s[0] then SubsequenceOf(r[1..], s[1..])
    else SubsequenceOf(r, s[1..])
  }

  /** Prepending an element that is not the head of `r` keeps `r` a subsequence. */
  lemma SubsequenceSkip<T>(r: seq<T>, x: T, s: seq<T>)
    requires SubsequenceOf(r, s)
    requires r == [] || r[0] != x
    ensures SubsequenceOf(r, [x] + s)
  {
    assert ([x] + s)[1..] == s;
  }

  /** Prepending the same element to both sides keeps the subsequence relation. */
  lemma SubsequenceCons<T>(r: seq<T>, x: T, s: seq<T>)
    requires SubsequenceOf(r, s)
    ensures SubsequenceOf([x] + r, [x] + s)
  {
    assert ([x] + r)[1..] == r;
    assert ([x] + s)[1..] == s;
  }
}
