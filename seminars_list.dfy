/** The seminar list view: the search filter applied to fetched data, the local removal
    after a delete and the local replacement after an update, and the `seminars`,
    `loading` and `error` state those handlers set. Each server call is an oracle. */
module ListView {
  import opened Records
  import opened Builtins

  /** The search predicate: the lower-cased query occurs in the lower-cased title or in
      the lower-cased description. */
  function MatchesQuery(query: string): (matches: Seminar -> bool)
    ensures forall s :: matches(s) <==>
      (exists i :: OccursAt(ToLowerCase(query), ToLowerCase(s.title), i)) ||
      (exists i :: OccursAt(ToLowerCase(query), ToLowerCase(s.description), i))
    ensures query == "" ==> forall s :: matches(s)
  {
    assert query == "" ==> forall s: Seminar :: OccursAt(ToLowerCase(query), ToLowerCase(s.title), 0);
    (s: Seminar) =>
      Includes(ToLowerCase(s.title), ToLowerCase(query)) ||
      Includes(ToLowerCase(s.description), ToLowerCase(query))
  }

  /** The list shown for a search: the fetched data itself for the empty query, the
      matching records otherwise. */
  function FilterByQuery(data: seq<Seminar>, query: string): (shown: seq<Seminar>)
    ensures query == "" ==> shown == data
    ensures |shown| <= |data|
    ensures forall i :: 0 <= i < |shown| ==> MatchesQuery(query)(shown[i])
  {
    if query == "" then data else Filter(data, MatchesQuery(query))
  }

  /** The keep-predicate of the local delete. */
  function OtherThan(id: int): (keep: Seminar -> bool)
    ensures forall s :: keep(s) <==> s.id != id
  {
    (s: Seminar) => s.id != id
  }

  /** The local delete: every record whose id is not `id`. */
  function WithoutId(s: seq<Seminar>, id: int): (r: seq<Seminar>)
    ensures forall i :: 0 <= i < |r| ==> r[i].id != id
  {
    Filter(s, OtherThan(id))
  }

  /** The local update: each record with the id of `updated` is replaced by it. */
  function ReplaceById(s: seq<Seminar>, updated: Seminar): (r: seq<Seminar>)
    ensures |r| == |s|
    ensures forall i :: 0 <= i < |s| ==> r[i].id == s[i].id
    ensures forall i :: 0 <= i < |s| && s[i].id == updated.id ==> r[i] == updated
    ensures forall i :: 0 <= i < |s| && s[i].id != updated.id ==> r[i] == s[i]
  {
    seq(|s|, i requires 0 <= i < |s| => if s[i].id == updated.id then updated else s[i])
  }

  /** The empty query matches every record, so the `query ? filter : data` guard gives
      the same list as filtering unconditionally. */
  lemma {:induction false} EmptyQueryShowsAll(data: seq<Seminar>)
    ensures FilterByQuery(data, "") == data
    ensures Filter(data, MatchesQuery("")) == data
  {
    assert ToLowerCase("") == "";
    forall i | 0 <= i < |data| ensures MatchesQuery("")(data[i]) {
      IncludesEmpty(ToLowerCase(data[i].title));
    }
    FilterAllKept(data, MatchesQuery(""));
  }

  /** The search result is an order-preserving subsequence of the fetched data, and a
      record is shown exactly when it was fetched and matches the query. */
  lemma SearchKeepsExactlyMatches(data: seq<Seminar>, query: string)
    ensures IsSubsequence(FilterByQuery(data, query), data)
    ensures forall x :: x in FilterByQuery(data, query) <==> x in data && MatchesQuery(query)(x)
    ensures forall x :: multiset(FilterByQuery(data, query))[x] == if MatchesQuery(query)(x) then multiset(data)[x] else 0
  {
    if query == "" {
      EmptyQueryShowsAll(data);
    }
    assert FilterByQuery(data, query) == Filter(data, MatchesQuery(query));
    FilterIsSubsequence(data, MatchesQuery(query));
    FilterCounts(data, MatchesQuery(query));
    forall x ensures x in FilterByQuery(data, query) <==> x in data && MatchesQuery(query)(x) {
      assert x in FilterByQuery(data, query) <==> multiset(FilterByQuery(data, query))[x] > 0;
      assert x in data <==> multiset(data)[x] > 0;
    }
  }

  /** The search ignores the case of the query. */
  lemma {:induction false} SearchIgnoresQueryCase(data: seq<Seminar>, query: string)
    ensures FilterByQuery(data, query) == FilterByQuery(data, ToLowerCase(query))
  {
    ToLowerCaseIdempotent(query);
    if query != "" {
      assert |ToLowerCase(query)| > 0;
      FilterCongruent(data, MatchesQuery(query), MatchesQuery(ToLowerCase(query)));
    }
  }

  /** After a delete no shown record has the id, and every record with another id is
      still there, in the same order. */
  lemma {:induction false} DeleteKeepsOthersInOrder(s: seq<Seminar>, id: int)
    ensures IsSubsequence(WithoutId(s, id), s)
    ensures forall i :: 0 <= i < |s| && s[i].id != id ==> s[i] in WithoutId(s, id)
  {
    FilterIsSubsequence(s, OtherThan(id));
    forall i | 0 <= i < |s| && s[i].id != id ensures s[i] in WithoutId(s, id) {
      FilterKeepsPassing(s, OtherThan(id), i);
    }
  }

  /** Deleting an id no record has changes nothing. */
  lemma DeleteMissingIdIsNoOp(s: seq<Seminar>, id: int)
    requires !HasId(s, id)
    ensures WithoutId(s, id) == s
  {
    FilterAllKept(s, OtherThan(id));
  }

  /** With distinct ids, deleting the id of the record at `k` removes exactly that record. */
  lemma DeleteRemovesExactlyOne(s: seq<Seminar>, k: int)
    requires UniqueIds(s)
    requires 0 <= k < |s|
    ensures WithoutId(s, s[k].id) == s[..k] + s[k + 1..]
    ensures |WithoutId(s, s[k].id)| == |s| - 1
  {
    var before, after := s[..k], s[k + 1..];
    forall i | 0 <= i < |before| ensures OtherThan(s[k].id)(before[i]) {
      assert before[i] == s[i];
    }
    forall i | 0 <= i < |after| ensures OtherThan(s[k].id)(after[i]) {
      assert after[i] == s[k + 1 + i];
    }
    assert s == before + [s[k]] + after;
    FilterDropsOne(before, s[k], after, OtherThan(s[k].id));
  }

  /** Replacing by the id of no record changes nothing. */
  lemma UpdateMissingIdIsNoOp(s: seq<Seminar>, updated: Seminar)
    requires !HasId(s, updated.id)
    ensures ReplaceById(s, updated) == s
  {
  }

  /** Replacing twice with the same record is replacing once. */
  lemma UpdateIdempotent(s: seq<Seminar>, updated: Seminar)
    ensures ReplaceById(ReplaceById(s, updated), updated) == ReplaceById(s, updated)
  {
  }

  /** An update keeps the ids (so distinct ids stay distinct) and, when some record had
      the id, the updated record is shown. */
  lemma UpdateKeepsIds(s: seq<Seminar>, updated: Seminar)
    ensures UniqueIds(s) ==> UniqueIds(ReplaceById(s, updated))
    ensures HasId(s, updated.id) ==> updated in ReplaceById(s, updated)
  {
    if HasId(s, updated.id) {
      var i :| 0 <= i < |s| && s[i].id == updated.id;
      assert ReplaceById(s, updated)[i] == updated;
    }
  }

  /** Deleting the updated id afterwards gives the same list as deleting it without the
      update: the update touches no record with another id. */
  lemma {:induction false} DeleteAfterUpdate(s: seq<Seminar>, updated: Seminar)
    ensures WithoutId(ReplaceById(s, updated), updated.id) == WithoutId(s, updated.id)
    decreases |s|
  {
    if s != [] {
      var r := ReplaceById(s, updated);
      assert r[1..] == ReplaceById(s[1..], updated);
      DeleteAfterUpdate(s[1..], updated);
    }
  }

  /** The messages the list shows when a call fails. */
  datatype ListError = LoadFailed | DeleteFailed | UpdateFailed

  /** The component's state. `query` is the search parameter of the page's URL. */
  class SeminarsList {
    var seminars: seq<Seminar>
    var loading: bool
    var error: Option<ListError>
    var query: string

    /** A freshly mounted list: empty, loading, no error. */
    constructor (query: string)
      ensures seminars == [] && loading && error == None && this.query == query
    {
      seminars, loading, error := [], true, None;
      this.query := query;
    }

    /** Start of `loadSeminars`, before the fetch is awaited: loading, error cleared. */
    method BeginLoad()
      modifies this
      ensures loading && error == None
      ensures seminars == old(seminars) && query == old(query)
    {
      loading := true;
      error := None;
    }

    /** End of `loadSeminars`, once `fetched` (the data, or `None` when the fetch threw)
      is known: on success the filtered data replaces the list, on failure the error is
      set and the list kept; loading is off either way. */
    method EndLoad(fetched: Option<seq<Seminar>>)
      modifies this
      ensures !loading && query == old(query)
      ensures fetched.Some? ==> seminars == FilterByQuery(fetched.value, query) && error == old(error)
      ensures fetched.None? ==> seminars == old(seminars) && error == Some(LoadFailed)
    {
      if fetched.Some? {
        seminars := FilterByQuery(fetched.value, query);
      } else {
        error := Some(LoadFailed);
      }
      loading := false;
    }

    /** `loadSeminars` as one step. */
    method LoadSeminars(fetched: Option<seq<Seminar>>)
      modifies this
      ensures !loading && query == old(query)
      ensures fetched.Some? ==> seminars == FilterByQuery(fetched.value, query) && error == None
      ensures fetched.None? ==> seminars == old(seminars) && error == Some(LoadFailed)
    {
      BeginLoad();
      EndLoad(fetched);
    }

    /** A new search query re-runs `loadSeminars` with it. */
    method SearchChanged(newQuery: string, fetched: Option<seq<Seminar>>)
      modifies this
      ensures !loading && query == newQuery
      ensures fetched.Some? ==> seminars == FilterByQuery(fetched.value, newQuery) && error == None
      ensures fetched.None? ==> seminars == old(seminars) && error == Some(LoadFailed)
    {
      query := newQuery;
      LoadSeminars(fetched);
    }

    /** `handleDelete`: `deleted` says whether the server call succeeded. */
    method HandleDelete(id: int, deleted: bool)
      modifies this
      ensures loading == old(loading) && query == old(query)
      ensures deleted ==> seminars == WithoutId(old(seminars), id) && error == old(error)
      ensures !deleted ==> seminars == old(seminars) && error == Some(DeleteFailed)
    {
      if deleted {
        seminars := WithoutId(seminars, id);
      } else {
        error := Some(DeleteFailed);
      }
    }

    /** `handleUpdate`: `response` is the record the server returned, or `None` when the
      call threw. */
    method HandleUpdate(response: Option<Seminar>)
      modifies this
      ensures loading == old(loading) && query == old(query)
      ensures response.Some? ==> seminars == ReplaceById(old(seminars), response.value) && error == old(error)
      ensures response.None? ==> seminars == old(seminars) && error == Some(UpdateFailed)
    {
      if response.Some? {
        seminars := ReplaceById(seminars, response.value);
      } else {
        error := Some(UpdateFailed);
      }
    }
  }
}
