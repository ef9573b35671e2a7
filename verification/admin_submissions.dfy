/**
  GET /api/admin/submissions (app/api/admin/submissions/route.ts): the
  moderation queue, optionally narrowed to one status, newest first, for
  administrators.
 */
module AdminSubmissionsRoute {
  import opened Text
  import opened Types
  import opened Http
  import opened Sorting
  import opened Storage
  import opened AdminAccess

  datatype SubmissionsListing = SubmissionsListing(submissions: seq<Submission>, total: int)

  /** The handler against the store; it only reads. `status` is the query
      parameter, compared as given; an empty one filters nothing. */
  method Get(store: Store, allowlist: Option<string>, fio: Option<string>, status: Option<string>)
    returns (r: Result<SubmissionsListing>)
    requires KeyedById(store.submissions)
    ensures r == Err(FioRequired) <==> fio.None? || Trim(fio.value) == ""
    ensures r == Err(AccessDenied) <==> fio.Some? && Trim(fio.value) != "" && !IsAdmin(allowlist, fio.value)
    ensures r.Ok? <==> fio.Some? && Trim(fio.value) != "" && IsAdmin(allowlist, fio.value)
    ensures r.Ok? ==>
      && r.value.total == |r.value.submissions|
      && NewestFirst(r.value.submissions, CreatedKey)
      && (forall x :: x in r.value.submissions <==>
            x.id in store.submissions && store.submissions[x.id] == x && MatchesFilter(x, status))
      && (forall x ::
            multiset(r.value.submissions)[x] == if x.id in store.submissions && store.submissions[x.id] == x && MatchesFilter(x, status) then 1 else 0)
      && (status.None? || status.value == "" ==> |r.value.submissions| == |store.submissions|)
  {
    if fio.None? || Trim(fio.value) == "" {
      return Err(FioRequired);
    }
    if !IsAdmin(allowlist, fio.value) {
      return Err(AccessDenied);
    }
    var subs := store.AllSubmissions(status);
    var sorted := SortNewestFirst(subs, CreatedKey);
    assert |sorted| == |multiset(sorted)| == |subs|;
    forall x ensures x in sorted <==> x in subs {
      assert x in sorted <==> x in multiset(sorted);
    }
    r := Ok(SubmissionsListing(sorted, |sorted|));
  }
}
