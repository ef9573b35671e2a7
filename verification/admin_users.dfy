/**
  GET /api/admin/users (app/api/admin/users/route.ts): every participant with
  the days left on the timer, newest topic choice first, for administrators.
 */
module AdminUsersRoute {
  import opened Text
  import opened Types
  import opened Http
  import opened Sorting
  import opened Storage
  import opened AdminAccess
  import opened MeRoute

  /** A participant record with the computed `daysLeft`. */
  datatype UserRow = UserRow(user: UserState, daysLeft: Option<int>)

  datatype UsersListing = UsersListing(users: seq<UserRow>, total: int)

  /** The row for one participant: days left only while a deadline is set,
      and a positive count exactly while the deadline is still ahead. */
  function RowFor(u: UserState, now: int): (r: UserRow)
    ensures r.user == u
    ensures r.daysLeft.Some? <==> u.deadlineAt.Some?
    ensures r.daysLeft.Some? ==>
      && r.daysLeft.value == DaysRemaining(u.deadlineAt.value, now)
      && (r.daysLeft.value >= 1 <==> now < u.deadlineAt.value)
  {
    if u.deadlineAt.Some? then
      DaysRemainingSign(u.deadlineAt.value, now);
      UserRow(u, Some(DaysRemaining(u.deadlineAt.value, now)))
    else UserRow(u, None)
  }

  /** `users.map(...)`: one row per participant, in the same order. */
  function Rows(users: seq<UserState>, now: int): (r: seq<UserRow>)
    ensures |r| == |users|
    ensures forall i :: 0 <= i < |users| ==>
      && r[i].user == users[i]
      && (r[i].daysLeft.Some? <==> users[i].deadlineAt.Some?)
      && (r[i].daysLeft.Some? ==> r[i].daysLeft.value == DaysRemaining(users[i].deadlineAt.value, now))
    ensures forall row :: row in r ==> row == RowFor(row.user, now)
  {
    seq(|users|, i requires 0 <= i < |users| => RowFor(users[i], now))
  }

  /** The sort key: the time the topic was chosen, if any. */
  function ChosenKey(row: UserRow): Option<int> {
    row.user.chosenAt
  }

  /** The handler against the store; it only reads. */
  method Get(store: Store, allowlist: Option<string>, fio: Option<string>, now: int) returns (r: Result<UsersListing>)
    ensures r == Err(FioRequired) <==> fio.None? || Trim(fio.value) == ""
    ensures r == Err(AccessDenied) <==> fio.Some? && Trim(fio.value) != "" && !IsAdmin(allowlist, fio.value)
    ensures r.Ok? <==> fio.Some? && Trim(fio.value) != "" && IsAdmin(allowlist, fio.value)
    ensures r.Ok? ==>
      && r.value.total == |r.value.users| == |store.users|
      && NewestFirst(r.value.users, ChosenKey)
      && (forall key :: key in store.users ==> RowFor(store.users[key], now) in r.value.users)
      && (forall row :: row in r.value.users ==> row.user in store.users.Values && row == RowFor(row.user, now))
  {
    if fio.None? || Trim(fio.value) == "" {
      return Err(FioRequired);
    }
    if !IsAdmin(allowlist, fio.value) {
      return Err(AccessDenied);
    }
    var users := store.AllUsers();
    var rows := Rows(users, now);
    var sorted := SortNewestFirst(rows, ChosenKey);
    assert |sorted| == |multiset(sorted)| == |rows|;
    forall key | key in store.users ensures RowFor(store.users[key], now) in sorted {
      var i :| 0 <= i < |users| && users[i] == store.users[key];
      assert rows[i] == RowFor(users[i], now) by { assert rows[i] in rows; }
      assert rows[i] in multiset(sorted);
    }
    forall row | row in sorted ensures row.user in store.users.Values && row == RowFor(row.user, now) {
      assert row in multiset(rows);
      var i :| 0 <= i < |rows| && rows[i] == row;
      assert row.user == users[i] && users[i] in users;
    }
    r := Ok(UsersListing(sorted, |sorted|));
  }
}
