/**
 The filter the `POST /q` handler builds from one query object (main.go,
 `queryJSON`): one equality matcher per non-empty field, appended in the fixed
 order Title, Description, Filename, Src. A record passes the filter when it
 passes every matcher, so the list means the conjunction of its equalities.
 */
module Matchers {
  import opened Records

  /** `q.Eq(field, value)`. */
  datatype Matcher = Eq(field: Field, value: string)

  predicate Holds(d: Data, m: Matcher) {
    DataField(d, m.field) == m.value
  }

  /** A record passes a list of matchers when it passes each of them. */
  predicate MatchesAll(d: Data, ms: seq<Matcher>) {
    forall i :: 0 <= i < |ms| ==> Holds(d, ms[i])
  }

  /** The matcher for field `f` of `q`, present only when that field is set. */
  function MatcherFor(q: Query, f: Field): seq<Matcher> {
    if QueryField(q, f) != "" then [Eq(f, QueryField(q, f))] else []
  }

  /** Every matcher of `ms` tests a non-empty field of `q` against that
      field's value. */
  predicate FromQuery(q: Query, ms: seq<Matcher>) {
    forall i :: 0 <= i < |ms| ==> ms[i].value == QueryField(q, ms[i].field) && ms[i].value != ""
  }

  /** The fields of `ms` strictly increase in the visiting order. */
  predicate InFieldOrder(ms: seq<Matcher>) {
    forall i, j :: 0 <= i < j < |ms| ==> Rank(ms[i].field) < Rank(ms[j].field)
  }

  /** Every matcher of `ms` tests one of the first `n` fields visited. */
  predicate AllBelow(ms: seq<Matcher>, n: nat) {
    forall i :: 0 <= i < |ms| ==> Rank(ms[i].field) < n
  }

  /** Appending the matcher for the next field keeps the list faithful to
      the query and in visiting order. */
  lemma AppendInOrder(ms: seq<Matcher>, q: Query, f: Field)
    requires FromQuery(q, ms) && InFieldOrder(ms) && AllBelow(ms, Rank(f))
    ensures FromQuery(q, ms + MatcherFor(q, f))
    ensures InFieldOrder(ms + MatcherFor(q, f))
    ensures AllBelow(ms + MatcherFor(q, f), Rank(f) + 1)
  {
  }

  /** The matcher list built for one query object: the present matchers,
      appended field by field. Every matcher tests a non-empty field against
      that field's value, and the fields appear in the order Title,
      Description, Filename, Src, each at most once. */
  function BuildMatchers(q: Query): (ms: seq<Matcher>)
    ensures |ms| <= 4
    ensures FromQuery(q, ms)
    ensures InFieldOrder(ms)
  {
    var t := MatcherFor(q, Title);
    var d := t + MatcherFor(q, Description);
    var f := d + MatcherFor(q, Filename);
    AppendInOrder([], q, Title);
    AppendInOrder(t, q, Description);
    AppendInOrder(d, q, Filename);
    AppendInOrder(f, q, Src);
    f + MatcherFor(q, Src)
  }

  /** The list holds an equality for a field exactly when that field of the
      query is non-empty; the all-empty query yields no matcher at all. */
  lemma BuildMatchersFields(q: Query)
    ensures forall f: Field ::
      Eq(f, QueryField(q, f)) in BuildMatchers(q) <==> QueryField(q, f) != ""
    ensures BuildMatchers(q) == [] <==> q == EmptyQuery
  {
  }

  /** A record passes the built matchers exactly when it satisfies the query. */
  lemma BuildMatchersMeaning(q: Query)
    ensures forall d: Data :: MatchesAll(d, BuildMatchers(q)) <==> Satisfies(d, q)
  {
    var ms := BuildMatchers(q);
    BuildMatchersFields(q);
    forall d: Data ensures MatchesAll(d, ms) <==> Satisfies(d, q) {
      if MatchesAll(d, ms) {
        forall f: Field | QueryField(q, f) != "" ensures DataField(d, f) == QueryField(q, f) {
          var i :| 0 <= i < |ms| && ms[i] == Eq(f, QueryField(q, f));
          assert Holds(d, ms[i]);
        }
      }
    }
  }
}
