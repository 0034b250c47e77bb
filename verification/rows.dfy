/** Values, rows and the two row-level operations of the post controller:
    the field-spread copy of the update handlers and the attribute projection
    of the `include` clauses. */
module Rows {

  datatype Option<+T> = None | Some(value: T)

  /** A JSON scalar as it appears in a request body or a stored column. */
  datatype Value = Null | Bool(b: bool) | Int(i: int) | Text(s: string)

  /** A stored row, or a request body: attribute name to value. */
  type Row = map<string, Value>

  /** JavaScript truthiness of a request value (`if (req.body.images)`). */
  predicate Truthy(v: Value)
  {
    match v
    case Null => false
    case Bool(b) => b
    case Int(i) => i != 0
    case Text(s) => s != ""
  }

  /** The row after every request key other than `idKey` has been copied onto it. */
  function Spread(row: Row, body: Row, idKey: string): (r: Row)
    ensures r.Keys == row.Keys + (body.Keys - {idKey})
    ensures forall k :: k in body && k != idKey ==> r[k] == body[k]
    ensures forall k :: k in row && (k !in body || k == idKey) ==> r[k] == row[k]
  {
    row + (body - {idKey})
  }

  /** The update loop `for (const key of Object.keys(body)) if (key !== idKey) row[key] = body[key]`,
      one key at a time. */
  method CopyFields(row: Row, body: Row, idKey: string) returns (r: Row)
    ensures r == Spread(row, body, idKey)
  {
    r := row;
    var pending := body.Keys;
    while pending != {}
      invariant pending <= body.Keys
      invariant r.Keys == row.Keys + (body.Keys - pending - {idKey})
      invariant forall k :: k in body && k !in pending && k != idKey ==> r[k] == body[k]
      invariant forall k :: k in row && (k !in body || k in pending || k == idKey) ==> r[k] == row[k]
      decreases pending
    {
      var key :| key in pending;
      if key != idKey {
        r := r[key := body[key]];
      }
      pending := pending - {key};
    }
  }

  /** A row seen through an `attributes: [...]` list: only the listed attributes survive. */
  function Project(row: Row, attributes: set<string>): (r: Row)
    ensures r.Keys == row.Keys * attributes
    ensures forall k :: k in r ==> r[k] == row[k]
  {
    map k | k in row && k in attributes :: row[k]
  }

  /** The request key `id` is not excluded by the spread: it overwrites the row's `id`. */
  lemma SpreadCopiesId(row: Row, body: Row, idKey: string)
    requires idKey != "id" && "id" in body
    ensures Spread(row, body, idKey)["id"] == body["id"]
  {
  }
}
