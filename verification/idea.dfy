/**
  POST /api/idea (app/api/idea/route.ts): a participant proposes an own topic.
  The idea becomes a pending submission for moderation and the participant is
  locked into the "own" path; the topic itself is only assigned on approval.
 */
module IdeaRoute {
  import opened Text
  import opened Types
  import opened Http
  import opened Storage

  /** Minimum length of the trimmed idea, in UTF-16 code units. */
  const MinIdeaLength := 20

  /** Whether the caller's latest submission is still waiting for moderation. */
  predicate IsPendingLatest(latest: Option<Submission>) {
    latest.Some? && latest.value.status == Pending
  }

  /** The effect of an accepted idea: the new submission is filed and the
      participant is locked into the own-topic path. */
  function FileIdea(s: AppState, user: UserState, sub: Submission): AppState {
    PutUser(AddSubmission(s, sub), user.(flow := Some(Own)))
  }

  /** The handler as a function of the stored aggregate. `latest` is what the
      submission lookup returns for the caller's name, `id` the fresh id
      drawn for the new submission and `now` the clock reading. */
  function SubmitIdea(s: AppState, fio: Field, idea: Field, latest: Option<Submission>, id: string, now: int)
    : (out: (Result<Submission>, AppState))
    requires IsNonBlankString(fio) ==> IsLatest(s.submissions, Normalize(fio.s), latest)
    requires id !in s.submissions
    ensures out.0.Err? ==> out.1 == s
    ensures out.0 == Err(FioRequired) <==> !IsNonBlankString(fio)
    ensures out.0 == Err(IdeaRequired) <==> IsNonBlankString(fio) && !IsNonBlankString(idea)
    ensures out.0 == Err(UserNotFound) <==>
      IsNonBlankString(fio) && IsNonBlankString(idea) && Normalize(fio.s) !in s.users
    ensures out.0 == Err(TopicAlreadySet) <==>
      && IsNonBlankString(fio) && IsNonBlankString(idea) && Normalize(fio.s) in s.users
      && HasTopic(s.users[Normalize(fio.s)])
    ensures out.0 == Err(FlowIsRandom) <==>
      && IsNonBlankString(fio) && IsNonBlankString(idea) && Normalize(fio.s) in s.users
      && !HasTopic(s.users[Normalize(fio.s)])
      && s.users[Normalize(fio.s)].flow == Some(Random)
    ensures out.0 == Err(IdeaTooShort) <==>
      && IsNonBlankString(fio) && IsNonBlankString(idea) && Normalize(fio.s) in s.users
      && !HasTopic(s.users[Normalize(fio.s)])
      && s.users[Normalize(fio.s)].flow != Some(Random)
      && Utf16Length(Trim(idea.s)) < MinIdeaLength
    ensures out.0 == Err(PendingSubmission) <==>
      && IsNonBlankString(fio) && IsNonBlankString(idea) && Normalize(fio.s) in s.users
      && !HasTopic(s.users[Normalize(fio.s)])
      && s.users[Normalize(fio.s)].flow != Some(Random)
      && Utf16Length(Trim(idea.s)) >= MinIdeaLength
      && IsPendingLatest(latest)
    ensures out.0.Ok? <==>
      && IsNonBlankString(fio) && IsNonBlankString(idea)
      && Normalize(fio.s) in s.users
      && !HasTopic(s.users[Normalize(fio.s)])
      && s.users[Normalize(fio.s)].flow != Some(Random)
      && Utf16Length(Trim(idea.s)) >= MinIdeaLength
      && !IsPendingLatest(latest)
    ensures out.0.Ok? ==>
      && out.0.value == Submission(id, fio.s, Trim(idea.s), Pending, None, None, now, now)
      && out.1.submissions == s.submissions[id := out.0.value]
      && out.1.usedTopics == s.usedTopics
    ensures out.0.Ok? && WellFormed(s) ==>
      var key := Normalize(fio.s);
      && key in out.1.users
      && out.1.users[key] == s.users[key].(flow := Some(Own))
      && out.1.users == s.users[key := out.1.users[key]]
  {
    if !IsNonBlankString(fio) then (Err(FioRequired), s)
    else if !IsNonBlankString(idea) then (Err(IdeaRequired), s)
    else
      var key := Normalize(fio.s);
      if key !in s.users then (Err(UserNotFound), s)
      else
        var user := s.users[key];
        if HasTopic(user) then (Err(TopicAlreadySet), s)
        else if user.flow == Some(Random) then (Err(FlowIsRandom), s)
        else if Utf16Length(Trim(idea.s)) < MinIdeaLength then (Err(IdeaTooShort), s)
        else if IsPendingLatest(latest) then (Err(PendingSubmission), s)
        else
          var sub := Submission(id, fio.s, Trim(idea.s), Pending, None, None, now, now);
          (Ok(sub), FileIdea(s, user, sub))
  }

  /** Filing an idea for a stored participant without a random topic keeps the
      aggregate well formed, and the aggregate only evolves. */
  lemma FileIdeaKeepsWellFormed(s: AppState, user: UserState, sub: Submission)
    requires WellFormed(s) && sub.id !in s.submissions
    requires Normalize(user.fio) in s.users && s.users[Normalize(user.fio)] == user
    requires user.flow != Some(Random)
    ensures WellFormed(FileIdea(s, user, sub)) && Evolves(s, FileIdea(s, user, sub))
  {
    var own := user.(flow := Some(Own));
    var t := AddSubmission(s, sub);
    AddSubmissionKeepsWellFormed(s, sub);
    assert t.users == s.users;
    assert user.flow.Some? ==> user.flow.value == Own;
    PutUserKeepsWellFormed(t, own);
    PutUserEvolves(t, own);
    EvolvesTransitive(s, t, PutUser(t, own));
  }

  /** Every answer of the handler keeps the aggregate well formed, and the aggregate only evolves. */
  lemma SubmitIdeaKeepsWellFormed(s: AppState, fio: Field, idea: Field, latest: Option<Submission>, id: string, now: int)
    requires IsNonBlankString(fio) ==> IsLatest(s.submissions, Normalize(fio.s), latest)
    requires id !in s.submissions
    requires WellFormed(s)
    ensures WellFormed(SubmitIdea(s, fio, idea, latest, id, now).1)
    ensures Evolves(s, SubmitIdea(s, fio, idea, latest, id, now).1)
  {
    var out := SubmitIdea(s, fio, idea, latest, id, now);
    if out.0.Ok? {
      var user := s.users[Normalize(fio.s)];
      FileIdeaKeepsWellFormed(s, user, out.0.value);
    } else {
      EvolvesReflexive(s);
    }
  }

  /** A pending submission is strictly newer than every other submission
      filed under the same normalised name. */
  predicate PendingIsNewest(subs: map<string, Submission>) {
    forall a, b | a in subs && b in subs && a != b && subs[a].status == Pending
      && Normalize(subs[a].fio) == Normalize(subs[b].fio) :: subs[b].createdAt < subs[a].createdAt
  }

  /** The clock is ahead of every stored creation time. */
  predicate ClockAhead(subs: map<string, Submission>, now: int) {
    forall id :: id in subs ==> subs[id].createdAt < now
  }

  /** Nobody has two pending submissions at once: every other submission under
      the same name as a pending one is not pending. */
  lemma PendingIsUnique(subs: map<string, Submission>, a: string)
    requires PendingIsNewest(subs)
    requires a in subs && subs[a].status == Pending
    ensures forall b | b in subs && b != a && Normalize(subs[b].fio) == Normalize(subs[a].fio)
      :: subs[b].status != Pending
  {
    forall b | b in subs && b != a && Normalize(subs[b].fio) == Normalize(subs[a].fio)
      ensures subs[b].status != Pending
    {
      assert subs[b].createdAt < subs[a].createdAt;
    }
  }

  /** A submission no newer than another one under the same name is not pending. */
  lemma OlderIsNotPending(subs: map<string, Submission>, a: string, b: string)
    requires PendingIsNewest(subs)
    requires a in subs && b in subs && a != b && Normalize(subs[a].fio) == Normalize(subs[b].fio)
    requires subs[a].createdAt <= subs[b].createdAt
    ensures subs[a].status != Pending
  {
  }

  /** When the latest submission under `key` is not pending, no submission
      under `key` is. */
  lemma {:induction false} NoPendingUnderKey(subs: map<string, Submission>, key: string, latest: Option<Submission>)
    requires PendingIsNewest(subs) && IsLatest(subs, key, latest) && !IsPendingLatest(latest)
    ensures forall a :: a in subs && Normalize(subs[a].fio) == key ==> subs[a].status != Pending
  {
    forall a | a in subs && Normalize(subs[a].fio) == key ensures subs[a].status != Pending {
      var x := latest.value;
      if x.id != a {
        OlderIsNotPending(subs, a, x.id);
      }
    }
  }

  /** Accepting an idea keeps every pending submission the newest under its
      name, provided the clock has moved past the stored creation times. */
  lemma {:induction false} SubmitIdeaKeepsPendingNewest(
    s: AppState, fio: Field, idea: Field, latest: Option<Submission>, id: string, now: int)
    requires IsNonBlankString(fio) ==> IsLatest(s.submissions, Normalize(fio.s), latest)
    requires id !in s.submissions
    requires PendingIsNewest(s.submissions) && ClockAhead(s.submissions, now)
    ensures PendingIsNewest(SubmitIdea(s, fio, idea, latest, id, now).1.submissions)
  {
    var out := SubmitIdea(s, fio, idea, latest, id, now);
    if out.0.Ok? {
      var key := Normalize(fio.s);
      NoPendingUnderKey(s.submissions, key, latest);
      var subs := out.1.submissions;
      forall a, b | a in subs && b in subs && a != b && subs[a].status == Pending
        && Normalize(subs[a].fio) == Normalize(subs[b].fio)
        ensures subs[b].createdAt < subs[a].createdAt
      {
        if a == id {
          assert b in s.submissions;
        } else if b != id {
          assert a in s.submissions && b in s.submissions;
        }
      }
    }
  }

  /** The handler against the store. The submission lookup's answer is returned
      as a ghost result, since ties in creation time leave its choice open. */
  method Post(store: Store, fio: Field, idea: Field, id: string, now: int)
    returns (r: Result<Submission>, ghost latest: Option<Submission>)
    requires KeyedById(store.submissions)
    requires id !in store.submissions
    modifies store
    ensures IsNonBlankString(fio) ==> IsLatest(old(store.submissions), Normalize(fio.s), latest)
    ensures (r, store.State()) == SubmitIdea(old(store.State()), fio, idea, latest, id, now)
  {
    latest := SomeLatest(store.submissions, if fio.Str? then Normalize(fio.s) else "");
    if !IsNonBlankString(fio) {
      return Err(FioRequired), latest;
    }
    if !IsNonBlankString(idea) {
      return Err(IdeaRequired), latest;
    }
    var user := store.GetUser(fio.s);
    if user.None? {
      return Err(UserNotFound), latest;
    }
    var u := user.value;
    if HasTopic(u) {
      return Err(TopicAlreadySet), latest;
    }
    if u.flow == Some(Random) {
      return Err(FlowIsRandom), latest;
    }
    if Utf16Length(Trim(idea.s)) < MinIdeaLength {
      return Err(IdeaTooShort), latest;
    }
    var found := store.LatestSubmissionFor(fio.s);
    latest := found;
    if IsPendingLatest(found) {
      return Err(PendingSubmission), latest;
    }
    var sub := store.CreateSubmission(id, fio.s, Trim(idea.s), now);
    store.SaveUser(u.(flow := Some(Own)));
    r := Ok(sub);
  }
}
