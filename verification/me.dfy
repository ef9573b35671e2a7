/**
  GET /api/me (app/api/me/route.ts): what the participant's page shows. A
  topic the participant has not yet seen (an approved own idea) starts the
  14-day timer on this first view; otherwise the route only reads.
 */
module MeRoute {
  import opened Text
  import opened Types
  import opened Http
  import opened Storage

  /** `Math.ceil(a / b)` for a positive divisor. */
  function CeilDiv(a: int, b: int): (q: int)
    requires b > 0
    ensures (q - 1) * b < a <= q * b
  {
    if a % b == 0 then a / b else a / b + 1
  }

  /** Whole days left until the deadline, rounded up. */
  function DaysRemaining(deadline: int, now: int): int {
    CeilDiv(deadline - now, DayMs)
  }

  /** Any time left, even a millisecond, counts as a day; none left gives no positive count. */
  lemma DaysRemainingSign(deadline: int, now: int)
    ensures now < deadline <==> DaysRemaining(deadline, now) >= 1
  {
  }

  /** The count never goes up as the clock advances. */
  lemma DaysRemainingMonotone(deadline: int, now1: int, now2: int)
    requires now1 <= now2
    ensures DaysRemaining(deadline, now2) <= DaysRemaining(deadline, now1)
  {
    var q1 := DaysRemaining(deadline, now1);
    var q2 := DaysRemaining(deadline, now2);
    assert (q2 - 1) * DayMs < q1 * DayMs;
  }

  /** The page state. The rejected view lets the participant resubmit. */
  datatype MeView =
    | TopicSelected(user: UserState, daysRemaining: Option<int>, adminComment: Option<string>)
    | PendingReview(user: UserState, submission: Submission)
    | RejectedReview(user: UserState, submission: Submission)
    | ApprovedPendingFinalization(user: UserState, submission: Submission)
    | Selecting(user: UserState)

  /** A topic is held but its timer has not started. */
  predicate NeedsTimer(u: UserState) {
    HasTopic(u) && u.chosenAt.None? && u.deadlineAt.None?
  }

  function StartTimer(u: UserState, now: int): UserState {
    u.(chosenAt := Some(now), deadlineAt := Some(now + DeadlineSpanMs))
  }

  /** The page for a (possibly just updated) participant record. */
  function View(u: UserState, latest: Option<Submission>, now: int): (v: MeView)
    ensures v.user == u
    ensures v.TopicSelected? <==> HasTopic(u)
    ensures v.TopicSelected? ==>
      && (v.daysRemaining.Some? <==> u.deadlineAt.Some?)
      && (u.deadlineAt.Some? ==> v.daysRemaining.value == DaysRemaining(u.deadlineAt.value, now))
      && (v.adminComment.Some? ==> latest.Some? && latest.value.status == Approved
                                   && v.adminComment == latest.value.adminComment)
      && (latest.Some? && latest.value.status == Approved ==> v.adminComment == latest.value.adminComment)
    ensures v.Selecting? <==> !HasTopic(u) && latest.None?
    ensures v.PendingReview? <==> !HasTopic(u) && latest.Some? && latest.value.status == Pending
    ensures v.RejectedReview? <==> !HasTopic(u) && latest.Some? && latest.value.status == Rejected
    ensures v.ApprovedPendingFinalization? <==> !HasTopic(u) && latest.Some? && latest.value.status == Approved
    ensures !v.TopicSelected? && !v.Selecting? ==> v.submission == latest.value
  {
    if HasTopic(u) then
      var days := if u.deadlineAt.Some? then Some(DaysRemaining(u.deadlineAt.value, now)) else None;
      var comment := if latest.Some? && latest.value.status == Approved then latest.value.adminComment else None;
      TopicSelected(u, days, comment)
    else if latest.None? then Selecting(u)
    else match latest.value.status
      case Pending => PendingReview(u, latest.value)
      case Rejected => RejectedReview(u, latest.value)
      case Approved => ApprovedPendingFinalization(u, latest.value)
  }

  /** The handler as a function of the stored aggregate. `fio` is the query
      parameter (absent or a string), `latest` the submission lookup's answer. */
  function Me(s: AppState, fio: Option<string>, latest: Option<Submission>, now: int): (out: (Result<MeView>, AppState))
    ensures out.0.Err? ==> out.1 == s
    ensures out.0 == Err(FioRequired) <==> fio.None? || Trim(fio.value) == ""
    ensures out.0 == Err(UserNotFound) <==> fio.Some? && Trim(fio.value) != "" && Normalize(fio.value) !in s.users
    ensures out.0.Ok? <==> fio.Some? && Trim(fio.value) != "" && Normalize(fio.value) in s.users
    ensures out.0.Ok? ==>
      var key := Normalize(fio.value);
      var u := s.users[key];
      && (NeedsTimer(u) ==> out.1 == s.(users := s.users[key := StartTimer(u, now)]))
      && (!NeedsTimer(u) ==> out.1 == s)
      && out.0.value == View(out.1.users[key], latest, now)
  {
    if fio.None? || Trim(fio.value) == "" then (Err(FioRequired), s)
    else
      var key := Normalize(fio.value);
      if key !in s.users then (Err(UserNotFound), s)
      else
        var u := s.users[key];
        var t := if NeedsTimer(u) then s.(users := s.users[key := StartTimer(u, now)]) else s;
        (Ok(View(t.users[key], latest, now)), t)
  }

  /** On the first view of an unseen topic the page shows the full 14 days. */
  lemma FirstViewShowsFourteenDays(s: AppState, fio: string, latest: Option<Submission>, now: int)
    requires Trim(fio) != "" && Normalize(fio) in s.users && NeedsTimer(s.users[Normalize(fio)])
    ensures Me(s, Some(fio), latest, now).0.Ok?
    ensures Me(s, Some(fio), latest, now).0.value.TopicSelected?
    ensures Me(s, Some(fio), latest, now).0.value.daysRemaining == Some(14)
  {
  }

  /** The timer starts at most once: viewing again, at any later time, changes nothing. */
  lemma MeSettles(s: AppState, fio: Option<string>, latest: Option<Submission>, now: int, later: int)
    ensures Me(Me(s, fio, latest, now).1, fio, latest, later).1 == Me(s, fio, latest, now).1
  {
  }

  /** Every answer keeps the aggregate well formed, and the aggregate only evolves. */
  lemma MeKeepsWellFormed(s: AppState, fio: Option<string>, latest: Option<Submission>, now: int)
    requires WellFormed(s)
    ensures WellFormed(Me(s, fio, latest, now).1) && Evolves(s, Me(s, fio, latest, now).1)
  {
    var out := Me(s, fio, latest, now);
    if out.0.Ok? && NeedsTimer(s.users[Normalize(fio.value)]) {
      var key := Normalize(fio.value);
      ReplaceUserKeepsWellFormed(s, key, StartTimer(s.users[key], now));
      ReplaceUserEvolves(s, key, StartTimer(s.users[key], now));
    } else {
      EvolvesReflexive(s);
    }
  }

  /** The handler against the store. */
  method Get(store: Store, fio: Option<string>, now: int) returns (r: Result<MeView>, ghost latest: Option<Submission>)
    requires KeyedById(store.submissions)
    modifies store
    ensures fio.Some? ==> IsLatest(old(store.submissions), Normalize(fio.value), latest)
    ensures (r, store.State()) == Me(old(store.State()), fio, latest, now)
  {
    latest := SomeLatest(store.submissions, if fio.Some? then Normalize(fio.value) else "");
    if fio.None? || Trim(fio.value) == "" {
      return Err(FioRequired), latest;
    }
    var user := store.GetUser(fio.value);
    if user.None? {
      return Err(UserNotFound), latest;
    }
    var u := user.value;
    if NeedsTimer(u) {
      var state := store.State();
      var key := Normalize(fio.value);
      store.WriteState(state.(users := state.users[key := StartTimer(u, now)]));
      u := StartTimer(u, now);
    }
    var found := store.LatestSubmissionFor(fio.value);
    latest := found;
    r := Ok(View(u, found, now));
  }
}
