/**
 * The record store the ingestion script writes to, seen from the script: a
 * collection of records that can be searched by page name and appended to.
 * Record `k` of a collection has id `k`.
 */
module Store {
  import opened Wrappers
  import Posts

  type RecordId = nat

  /** A record's fields: a page `{'name': ...}` or a post `{'page': ..., 'post': ...}`. */
  datatype Fields = PageFields(name: string) | PostFields(page: RecordId, post: Posts.Post)

  datatype Record = Record(id: RecordId, fields: Fields)

  /** The id of the first record matching the filter `name = "<name>"`, if any. */
  function FirstNamed(records: seq<Fields>, name: string): (r: Option<RecordId>)
    ensures r.Some? ==> r.value < |records| && records[r.value] == PageFields(name) &&
                        forall k :: 0 <= k < r.value ==> records[k] != PageFields(name)
    ensures r.None? <==> forall k :: 0 <= k < |records| ==> records[k] != PageFields(name)
  {
    if records == [] then None
    else if records[0] == PageFields(name) then Some(0)
    else
      var r := FirstNamed(records[1..], name);
      assert forall k :: 1 <= k < |records| ==> records[k] == records[1..][k - 1];
      if r.Some? then Some(r.value + 1) else None
  }

  class Collection {
    var records: seq<Fields>

    constructor ()
      ensures records == []
    {
      records := [];
    }

    /** `collection.create(fields)`: append one record and return it with its new id. */
    method Create(fields: Fields) returns (rec: Record)
      modifies this
      ensures records == old(records) + [fields]
      ensures rec == Record(|old(records)|, fields)
    {
      rec := Record(|records|, fields);
      records := records + [fields];
    }
  }
}
