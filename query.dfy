/**
 * The search behind `POST /api/sanctions/search` (server.js): validate the query, keep
 * the records whose name, uid, countries or programs contain it regardless of ASCII case,
 * cut the list with `slice(0, limit)`, and report the size of the whole dataset beside it.
 */
module Query {
  import opened Wrappers
  import opened Text
  import opened Entries

  /** The `query` property of the request body: missing, a string, or some other JSON value. */
  datatype QueryValue = Missing | StringValue(text: string) | OtherValue

  /** The response body: a 400 rejection, or the matches with their count and the dataset total. */
  datatype SearchResponse =
    | Rejected(status: nat, error: string, message: string)
    | Found(data: seq<Record>, count: nat, total: nat)

  const DefaultLimit := 100
  const BadRequest := 400

  /** `!query || typeof query !== 'string'` rejects; only a non-empty string passes. */
  function IsValidQuery(q: QueryValue): (b: bool)
    ensures b ==> q.StringValue? && |q.text| > 0
    ensures q.Missing? || q.OtherValue? || q == StringValue("") ==> !b
    ensures q.StringValue? && q.text != "" ==> b
  {
    q.StringValue? && q.text != ""
  }

  /** `limit = 100` in the destructuring: the default applies only when it is missing. */
  function LimitOf(limit: Option<int>): (n: int)
    ensures limit.None? ==> n == DefaultLimit
    ensures limit.Some? ==> n == limit.value
  {
    if limit.Some? then limit.value else DefaultLimit
  }

  /** `field && field.toLowerCase().includes(term)`: an empty or missing field never matches. */
  predicate FieldMatches(field: Option<string>, term: string) {
    field.Some? && field.value != "" && Includes(Lower(field.value), term)
  }

  /** The fields the filter looks at, in the order it tries them. */
  function SearchedFields(r: Record): seq<Option<string>> {
    [r.name, r.uid, r.countries, r.programs]
  }

  /** The filter's test on one record: one of its searched fields matches. */
  function IsHit(r: Record, term: string): (b: bool)
    ensures b <==> exists k | 0 <= k < |SearchedFields(r)| :: FieldMatches(SearchedFields(r)[k], term)
  {
    var fields := SearchedFields(r);
    assert fields[0] == r.name && fields[1] == r.uid && fields[2] == r.countries && fields[3] == r.programs;
    FieldMatches(r.name, term) || FieldMatches(r.uid, term) || FieldMatches(r.countries, term) || FieldMatches(r.programs, term)
  }

  /** `xs` can be obtained from `ys` by deleting elements, order kept. */
  predicate IsSubsequence<T(==)>(xs: seq<T>, ys: seq<T>)
    decreases |ys|
  {
    |xs| <= |ys| && (xs == [] || (xs[0] == ys[0] && IsSubsequence(xs[1..], ys[1..])) || IsSubsequence(xs, ys[1..]))
  }

  /** `data.filter(IsHit)`: only hits, in their original order. */
  function Filter(data: seq<Record>, term: string): (r: seq<Record>)
    ensures forall k :: 0 <= k < |r| ==> IsHit(r[k], term)
    ensures IsSubsequence(r, data)
    decreases |data|
  {
    if data == [] then []
    else
      var rest := Filter(data[1..], term);
      if IsHit(data[0], term) then [data[0]] + rest else rest
  }

  /** The filter drops nothing it should keep: every hit of `data` is kept as often as it occurs. */
  lemma {:induction false} FilterKeepsEveryHit(data: seq<Record>, term: string, x: Record)
    ensures multiset(Filter(data, term))[x] == if IsHit(x, term) then multiset(data)[x] else 0
    decreases |data|
  {
    if data != [] {
      assert data == [data[0]] + data[1..];
      FilterKeepsEveryHit(data[1..], term, x);
    }
  }

  /** `s.slice(0, end)`: a prefix; a negative `end` counts back from the end of `s`. */
  function SliceTo<T>(s: seq<T>, end: int): (r: seq<T>)
    ensures |r| <= |s| && r == s[..|r|]
    ensures end >= 0 ==> |r| == if end < |s| then end else |s|
    ensures end < 0 ==> |r| == if |s| + end > 0 then |s| + end else 0
  {
    if end >= 0 then (if end < |s| then s[..end] else s)
    else if |s| + end > 0 then s[..|s| + end] else []
  }

  /** A prefix of a subsequence is a subsequence. */
  lemma {:induction false} PrefixIsSubsequence<T>(xs: seq<T>, ys: seq<T>, n: nat)
    requires IsSubsequence(xs, ys) && n <= |xs|
    ensures IsSubsequence(xs[..n], ys)
    decreases |ys|
  {
    if n == 0 {
    } else if xs[0] == ys[0] && IsSubsequence(xs[1..], ys[1..]) {
      PrefixIsSubsequence(xs[1..], ys[1..], n - 1);
      assert xs[..n][1..] == xs[1..][..n - 1];
    } else {
      PrefixIsSubsequence(xs, ys[1..], n);
    }
  }

  /** The whole search: validation, filter, cut, and the dataset total. */
  function Search(data: seq<Record>, total: nat, query: QueryValue, limit: Option<int>): (resp: SearchResponse)
    ensures resp.Rejected? <==> !IsValidQuery(query)
    ensures resp.Rejected? ==> resp.status == BadRequest
    ensures resp.Found? ==>
      var term := Lower(query.text);
      var hits := Filter(data, term);
      && resp.total == total
      && resp.count == |resp.data|
      && |resp.data| <= |hits| && resp.data == hits[..|resp.data|]
      && IsSubsequence(resp.data, data)
      && (forall k :: 0 <= k < |resp.data| ==> IsHit(resp.data[k], term))
      && (LimitOf(limit) >= 0 ==> |resp.data| == if LimitOf(limit) < |hits| then LimitOf(limit) else |hits|)
      && (LimitOf(limit) < 0 ==> |resp.data| == if |hits| + LimitOf(limit) > 0 then |hits| + LimitOf(limit) else 0)
  {
    if !IsValidQuery(query) then
      Rejected(BadRequest, "Invalid request", "Search query is required and must be a string")
    else
      var hits := Filter(data, Lower(query.text));
      var results := SliceTo(hits, LimitOf(limit));
      PrefixIsSubsequence(hits, data, |results|);
      assert results == hits[..|results|];
      assert forall k :: 0 <= k < |results| ==> IsHit(results[k], Lower(query.text)) by {
        assert forall k :: 0 <= k < |results| ==> results[k] == hits[k];
      }
      Found(results, |results|, total)
  }

  /** A record whose name contains the query verbatim is always found, whatever the case. */
  lemma VerbatimNameIsHit(r: Record, query: string)
    requires r.name.Some? && query != "" && Includes(r.name.value, query)
    ensures IsHit(r, Lower(query))
  {
    LowerKeepsIncludes(r.name.value, query);
  }
}
