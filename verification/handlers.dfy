/**
 The `POST /q` handler (`queryJSON` in main.go). The request body is decoded
 into a list of query objects; decoding is done by the HTTP framework and
 enters the model as its outcome, `None` for a malformed body. For each query
 object the handler builds the matcher list, asks the store for the first
 passing record into a fresh zero `Data`, and stores that record in the
 slot of the response with the same position.
 */
module Handlers {
  import opened Records
  import opened Matchers
  import opened Store

  /** The fixed message of the 400 response. */
  const ParseErrorMessage := "Error occurred when parsing your JSON query ! X( "

  datatype Response = Ok(details: seq<Data>) | BadRequest(message: string)

  /** The intended answer to one query object: the first stored record that
      satisfies it, or the zero record when none does. */
  predicate AnswersQuery(store: seq<Data>, q: Query, d: Data) {
    || (exists k :: 0 <= k < |store| && store[k] == d && Satisfies(store[k], q)
          && forall j :: 0 <= j < k ==> !Satisfies(store[j], q))
    || (d == ZeroData && forall j :: 0 <= j < |store| ==> !Satisfies(store[j], q))
  }

  /** One slot of the response: a fresh zero record, overwritten by the
      store's first match for the query's matchers when there is one. Under
      the store assumption the slot holds the first stored record satisfying
      the query, or the zero record when none does. */
  function Answer(store: seq<Data>, q: Query): (r: Data)
    ensures AnswersQuery(store, q, r)
  {
    BuildMatchersMeaning(q);
    var resp := ZeroData;
    match SelectFirst(store, BuildMatchers(q))
    case Some(found) => found
    case None => resp
  }

  /** The intended answer is determined by the store and the query alone, so
      no slot can carry over the result of another query. */
  lemma AnswersQueryUnique(store: seq<Data>, q: Query, d1: Data, d2: Data)
    requires AnswersQuery(store, q, d1)
    requires AnswersQuery(store, q, d2)
    ensures d1 == d2
  {
  }

  /** A query object that matches nothing is answered with the zero record. */
  lemma NoMatchGivesZero(store: seq<Data>, q: Query)
    requires forall j :: 0 <= j < |store| ==> !Satisfies(store[j], q)
    ensures Answer(store, q) == ZeroData
  {
  }

  /** The all-empty query object has no matchers, so (under the store
      assumption) it is answered with the first stored record. */
  lemma EmptyQueryGivesFirst(store: seq<Data>)
    requires |store| > 0
    ensures Answer(store, EmptyQuery) == store[0]
  {
  }

  /** `queryJSON`: a malformed body gets the 400 message; otherwise the
      response has one slot per query object, and slot `i` is the intended
      answer to query object `i`. */
  method QueryJSON(store: seq<Data>, parsed: Option<seq<Query>>) returns (resp: Response)
    ensures parsed.None? <==> resp == BadRequest(ParseErrorMessage)
    ensures parsed.Some? ==>
      && resp.Ok?
      && |resp.details| == |parsed.value|
      && forall i :: 0 <= i < |parsed.value| ==> AnswersQuery(store, parsed.value[i], resp.details[i])
  {
    if parsed.None? {
      return BadRequest(ParseErrorMessage);
    }
    var queries := parsed.value;
    var details := seq(|queries|, _ => ZeroData);
    for i := 0 to |queries|
      invariant |details| == |queries|
      invariant forall k :: 0 <= k < i ==> AnswersQuery(store, queries[k], details[k])
    {
      var d := Answer(store, queries[i]);
      details := details[i := d];
    }
    resp := Ok(details);
  }
}
