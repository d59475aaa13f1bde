/**
 * What the transaction source hands back for one fetch window, as far as the
 * collector and the aggregator look into it.
 */
module Source {
  import opened Wrappers

  /** One transaction: its `txdate` text, its `txamt` in fen (negative for a debit) and its `mername`. */
  datatype Record = Record(txdate: string, txamt: int, mername: string)

  /** The `data` object of a response; its own `data` member, when present, is the list of records. */
  datatype Payload = Payload(data: Option<seq<Record>>)

  /** A response body: the `success` flag and the optional `data` object. */
  datatype Response = Response(success: bool, data: Option<Payload>)

  /** A response that is present and reports success: the condition for writing it to the cache. */
  predicate Successful(response: Option<Response>) {
    response.Some? && response.value.success
  }

  /** A successful response that also carries `data.data`: the condition for appending its records. */
  predicate HasRecords(response: Option<Response>) {
    Successful(response) && response.value.data.Some? && response.value.data.value.data.Some?
  }

  /** The records one month's response adds to the collection: `data.data`, or nothing. */
  function Contribution(response: Option<Response>): (records: seq<Record>)
    ensures !HasRecords(response) ==> records == []
    ensures Successful(response) || records == []
  {
    if HasRecords(response) then response.value.data.value.data.value else []
  }
}
