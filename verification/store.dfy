/**
 The part of the embedded record store that `POST /q` uses:
 `db.Select(matchers...).First(&resp)`. The store library's code is not part
 of this model, so its behaviour here is an ASSUMPTION, not a verified fact:
 the store is a sequence of records in its iteration order, `First` picks the
 lowest-index record that passes every matcher (so an empty matcher list picks
 the first record), and when no record passes it reports "not found" and
 leaves the destination untouched.
 */
module Store {
  import opened Records
  import opened Matchers

  /** Index of the first record of `store` passing every matcher of `ms`. */
  function FirstMatchIndex(store: seq<Data>, ms: seq<Matcher>): (r: Option<nat>)
    ensures r.Some? ==>
      && r.value < |store|
      && MatchesAll(store[r.value], ms)
      && forall j :: 0 <= j < r.value ==> !MatchesAll(store[j], ms)
    ensures r.None? ==> forall j :: 0 <= j < |store| ==> !MatchesAll(store[j], ms)
    decreases |store|
  {
    if |store| == 0 then None
    else if MatchesAll(store[0], ms) then Some(0)
    else
      match FirstMatchIndex(store[1..], ms)
      case None => None
      case Some(k) => Some(k + 1)
  }

  /** `Select(ms...).First`: the lowest-index passing record, or `None` for
      the store's not-found error. */
  function SelectFirst(store: seq<Data>, ms: seq<Matcher>): (r: Option<Data>)
    ensures r.Some? ==>
      exists k :: 0 <= k < |store| && store[k] == r.value && MatchesAll(store[k], ms)
        && forall j :: 0 <= j < k ==> !MatchesAll(store[j], ms)
    ensures r.None? <==> forall j :: 0 <= j < |store| ==> !MatchesAll(store[j], ms)
  {
    match FirstMatchIndex(store, ms)
    case None => None
    case Some(k) => Some(store[k])
  }
}
