/**
  The persistent state store (lib/storage.ts) with the file system taken out:
  the aggregate is an in-memory object whose helpers look records up and
  update its maps in place. Also the invariants every modelled route keeps.
 */
module Storage {
  import opened Text
  import opened Types
  import opened Sorting

  // ---------------------------------------------------------------- names

  /** `normalizeFio`: the key a participant's name is stored and looked up under. */
  function Normalize(fio: string): string {
    ToLowerCase(Trim(fio))
  }

  /** Normalising a key gives the key back. */
  lemma NormalizeIdempotent(fio: string)
    ensures Normalize(Normalize(fio)) == Normalize(fio)
  {
    TrimSpec(fio);
    ToLowerCaseKeepsTrimmed(Trim(fio));
    TrimTrimmed(Normalize(fio));
    ToLowerCaseIdempotent(Trim(fio));
  }

  /** Surrounding white space does not change the key. */
  lemma NormalizeIgnoresPadding(p: string, fio: string, q: string)
    requires AllSpace(p) && AllSpace(q)
    ensures Normalize(p + fio + q) == Normalize(fio)
  {
    TrimPadding(p, fio, q);
  }

  /** Letter case does not change the key. */
  lemma NormalizeIgnoresCase(fio: string)
    ensures Normalize(ToLowerCase(fio)) == Normalize(fio)
  {
    TrimToLowerCaseCommute(fio);
    ToLowerCaseIdempotent(Trim(fio));
  }

  /** The trimmed name has the same key as the name as typed. */
  lemma NormalizeTrim(fio: string)
    ensures Normalize(Trim(fio)) == Normalize(fio)
  {
    TrimIdempotent(fio);
  }

  /** Only a blank name has the empty key. */
  lemma NormalizeEmptyIffBlank(fio: string)
    ensures Normalize(fio) == "" <==> Trim(fio) == ""
  {
  }

  // ----------------------------------------------------------- invariants

  /** What the modelled routes keep true of each participant record: the two
      timestamps are set together, 14 days apart, and only once a topic is
      held; completion needs a topic; a stored link is non-empty. */
  predicate UserConsistent(u: UserState) {
    && (u.chosenAt.Some? <==> u.deadlineAt.Some?)
    && (u.chosenAt.Some? ==> HasTopic(u) && u.deadlineAt.value == u.chosenAt.value + DeadlineSpanMs)
    && (u.completedAt.Some? ==> HasTopic(u))
    && (u.gitLink.Some? ==> u.completedAt.Some? && u.gitLink.value != "")
  }

  predicate KeyedById(subs: map<string, Submission>) {
    forall id :: id in subs ==> subs[id].id == id
  }

  /** Every user sits under the normalised form of its own name, every
      submission under its own id. */
  predicate WellFormed(s: AppState) {
    && (forall key :: key in s.users ==> key == Normalize(s.users[key].fio) && UserConsistent(s.users[key]))
    && KeyedById(s.submissions)
  }

  /** How one participant record may change: identity and level never; a
      chosen flow, a held topic, started timestamps and a completion are never
      changed or cleared. */
  predicate UserEvolves(u: UserState, v: UserState) {
    && v.fio == u.fio && v.level == u.level && v.originalIdea == u.originalIdea
    && (u.flow.Some? ==> v.flow == u.flow)
    && (HasTopic(u) ==> v.topic == u.topic)
    && (u.chosenAt.Some? ==> v.chosenAt == u.chosenAt && v.deadlineAt == u.deadlineAt)
    && (u.completedAt.Some? ==> v.completedAt == u.completedAt && v.gitLink == u.gitLink)
  }

  /** How the whole aggregate may change under the modelled routes: nobody is
      removed, existing submissions are untouched and both ledgers only grow
      at the end. */
  predicate Evolves(s: AppState, t: AppState) {
    && (forall key :: key in s.users ==> key in t.users && UserEvolves(s.users[key], t.users[key]))
    && (forall id :: id in s.submissions ==> id in t.submissions && t.submissions[id] == s.submissions[id])
    && s.usedTopics.easy <= t.usedTopics.easy
    && s.usedTopics.hard <= t.usedTopics.hard
  }

  lemma EvolvesTransitive(s: AppState, t: AppState, u: AppState)
    ensures Evolves(s, t) && Evolves(t, u) ==> Evolves(s, u)
  {
  }

  /** The aggregate with `u` stored under the normalised form of its own name. */
  function PutUser(s: AppState, u: UserState): AppState {
    s.(users := s.users[Normalize(u.fio) := u])
  }

  /** Storing a consistent record under its own key keeps the aggregate well formed. */
  lemma PutUserKeepsWellFormed(s: AppState, u: UserState)
    requires WellFormed(s) && UserConsistent(u)
    ensures WellFormed(PutUser(s, u))
  {
  }

  /** Storing a record that is new, or an evolution of the stored one, only evolves the aggregate. */
  lemma PutUserEvolves(s: AppState, u: UserState)
    requires Normalize(u.fio) in s.users ==> UserEvolves(s.users[Normalize(u.fio)], u)
    ensures Evolves(s, PutUser(s, u))
  {
  }

  /** Replacing a stored record by a consistent one with the same name keeps the aggregate well formed. */
  lemma ReplaceUserKeepsWellFormed(s: AppState, key: string, v: UserState)
    requires WellFormed(s) && key in s.users && v.fio == s.users[key].fio && UserConsistent(v)
    ensures WellFormed(s.(users := s.users[key := v]))
  {
  }

  /** Replacing a stored record by an evolution of it only evolves the aggregate. */
  lemma ReplaceUserEvolves(s: AppState, key: string, v: UserState)
    requires key in s.users && UserEvolves(s.users[key], v)
    ensures Evolves(s, s.(users := s.users[key := v]))
  {
  }

  /** The aggregate with a new submission filed under its own id. */
  function AddSubmission(s: AppState, x: Submission): AppState {
    s.(submissions := s.submissions[x.id := x])
  }

  /** Filing a submission under a fresh id keeps the aggregate well formed and only evolves it. */
  lemma AddSubmissionKeepsWellFormed(s: AppState, x: Submission)
    requires x.id !in s.submissions
    ensures WellFormed(s) ==> WellFormed(AddSubmission(s, x))
    ensures Evolves(s, AddSubmission(s, x))
  {
    var t := AddSubmission(s, x);
    assert t.users == s.users && t.usedTopics == s.usedTopics;
    forall key | key in s.users ensures UserEvolves(s.users[key], t.users[key]) {
      UserEvolvesReflexive(s.users[key]);
    }
  }

  lemma UserEvolvesReflexive(u: UserState)
    ensures UserEvolves(u, u)
  {
  }

  lemma EvolvesReflexive(s: AppState)
    ensures Evolves(s, s)
  {
    forall key | key in s.users ensures UserEvolves(s.users[key], s.users[key]) {
      UserEvolvesReflexive(s.users[key]);
    }
  }

  // ------------------------------------------------------- reading the file

  /** The aggregate as parsed from the file, where the two later additions may be missing. */
  datatype StoredState = StoredState(
    users: map<string, UserState>,
    usedTopics: Option<UsedTopics>,
    submissions: Option<map<string, Submission>>)

  /** What `ensureStorageExists` writes when there is no file yet. */
  const InitialFile := StoredState(map[], Some(UsedTopics([], [])), Some(map[]))

  /** The backfill in `readState`. */
  function Backfill(raw: StoredState): AppState {
    AppState(
      raw.users,
      if raw.usedTopics.Some? then raw.usedTopics.value else UsedTopics([], []),
      if raw.submissions.Some? then raw.submissions.value else map[])
  }

  /** What `writeState` serialises. */
  function Persist(s: AppState): StoredState {
    StoredState(s.users, Some(s.usedTopics), Some(s.submissions))
  }

  /** Reading back what was written gives the same aggregate, and a file
      lacking the later additions reads as empty submissions and empty ledgers. */
  lemma ReadAfterWrite(s: AppState, raw: StoredState)
    ensures Backfill(Persist(s)) == s
    ensures raw.submissions.None? ==> Backfill(raw).submissions == map[]
    ensures raw.usedTopics.None? ==> Backfill(raw).usedTopics == UsedTopics([], [])
    ensures WellFormed(Backfill(InitialFile))
  {
  }

  // -------------------------------------------------- submission queries

  /** `latest` is what `getSubmissionByFio` may return for the key: nothing
      when no submission's normalised name matches, otherwise a matching
      submission with the greatest creation time. */
  predicate IsLatest(subs: map<string, Submission>, key: string, latest: Option<Submission>) {
    match latest
    case None => forall id :: id in subs ==> Normalize(subs[id].fio) != key
    case Some(x) =>
      && x.id in subs && subs[x.id] == x && Normalize(x.fio) == key
      && forall id :: id in subs && Normalize(subs[id].fio) == key ==> subs[id].createdAt <= x.createdAt
  }

  /** A value satisfying `IsLatest` always exists. */
  lemma {:induction false} LatestExists(subs: map<string, Submission>, key: string)
    requires KeyedById(subs)
    ensures exists o :: IsLatest(subs, key, o)
    decreases |subs|
  {
    if |subs| == 0 {
      assert IsLatest(subs, key, None);
    } else {
      var id :| id in subs;
      var smaller := subs - {id};
      LatestExists(smaller, key);
      var rest :| IsLatest(smaller, key, rest);
      var x := subs[id];
      if Normalize(x.fio) != key {
        assert IsLatest(subs, key, rest) by {
          if rest.Some? {
            assert rest.value.id in smaller;
            forall id' | id' in subs && Normalize(subs[id'].fio) == key
              ensures subs[id'].createdAt <= rest.value.createdAt
            {
              assert id' in smaller;
            }
          } else {
            forall id' | id' in subs ensures Normalize(subs[id'].fio) != key {
              if id' != id { assert id' in smaller; }
            }
          }
        }
      } else if rest.Some? && rest.value.createdAt >= x.createdAt {
        assert rest.value.id in smaller;
        forall id' | id' in subs && Normalize(subs[id'].fio) == key
          ensures subs[id'].createdAt <= rest.value.createdAt
        {
          if id' != id { assert id' in smaller; }
        }
        assert IsLatest(subs, key, rest);
      } else {
        forall id' | id' in subs && Normalize(subs[id'].fio) == key
          ensures subs[id'].createdAt <= x.createdAt
        {
          if id' != id {
            assert id' in smaller;
            assert rest.Some?;
          }
        }
        assert IsLatest(subs, key, Some(x));
      }
    }
  }

  /** A witness for `IsLatest`, for paths that never look the submission up. */
  ghost function SomeLatest(subs: map<string, Submission>, key: string): (r: Option<Submission>)
    requires KeyedById(subs)
    ensures IsLatest(subs, key, r)
  {
    LatestExists(subs, key);
    var o :| IsLatest(subs, key, o);
    o
  }

  function CreatedKey(s: Submission): Option<int> {
    Some(s.createdAt)
  }

  /** The filter in `getSubmissionByFio`. */
  function OwnedBy(xs: seq<Submission>, key: string): (r: seq<Submission>)
    ensures forall x :: x in r <==> x in xs && Normalize(x.fio) == key
  {
    if xs == [] then []
    else (if Normalize(xs[0].fio) == key then [xs[0]] else []) + OwnedBy(xs[1..], key)
  }

  /** The status filter of `getAllSubmissions`; a missing or empty filter keeps everything. */
  predicate MatchesFilter(x: Submission, filter: Option<string>) {
    filter.None? || filter.value == "" || StatusName(x.status) == filter.value
  }

  function WithStatus(xs: seq<Submission>, status: string): (r: seq<Submission>)
    ensures forall x :: x in r <==> x in xs && StatusName(x.status) == status
    ensures forall x :: multiset(r)[x] == if StatusName(x.status) == status then multiset(xs)[x] else 0
  {
    if xs == [] then []
    else
      assert xs == [xs[0]] + xs[1..];
      (if StatusName(xs[0].status) == status then [xs[0]] else []) + WithStatus(xs[1..], status)
  }

  // ----------------------------------------------------------------- store

  /** The loaded aggregate. Its helpers update the maps in place. */
  class Store {
    var users: map<string, UserState>
    var usedTopics: UsedTopics
    var submissions: map<string, Submission>

    function State(): AppState
      reads this
    {
      AppState(users, usedTopics, submissions)
    }

    ghost predicate Valid()
      reads this
    {
      WellFormed(State())
    }

    /** `readState`. */
    constructor Load(raw: StoredState)
      ensures State() == Backfill(raw)
    {
      var s := Backfill(raw);
      users := s.users;
      usedTopics := s.usedTopics;
      submissions := s.submissions;
    }

    /** `writeState`: replace the stored aggregate. */
    method WriteState(t: AppState)
      modifies this
      ensures State() == t
    {
      users := t.users;
      usedTopics := t.usedTopics;
      submissions := t.submissions;
    }

    /** `getUser`: the record under the normalised name, if any. */
    function GetUser(fio: string): (r: Option<UserState>)
      reads this
      ensures r.Some? <==> Normalize(fio) in users
      ensures r.Some? ==> r.value == users[Normalize(fio)]
      ensures Valid() && r.Some? ==> Normalize(r.value.fio) == Normalize(fio)
    {
      var key := Normalize(fio);
      if key in users then Some(users[key]) else None
    }

    /** `saveUser`: store the record under the normalised form of its own name. */
    method SaveUser(user: UserState)
      modifies this
      ensures State() == PutUser(old(State()), user)
      ensures old(Valid()) && UserConsistent(user) ==> Valid()
    {
      users := users[Normalize(user.fio) := user];
      if old(Valid()) && UserConsistent(user) {
        PutUserKeepsWellFormed(old(State()), user);
      }
    }

    /** `getAllUsers`: every stored user, each once, in unspecified order. */
    method AllUsers() returns (r: seq<UserState>)
      ensures |r| == |users|
      ensures forall key :: key in users ==> users[key] in r
      ensures forall u :: u in r ==> u in users.Values
    {
      r := [];
      var keys := users.Keys;
      while keys != {}
        invariant keys <= users.Keys
        invariant |r| + |keys| == |users|
        invariant forall key :: key in users && key !in keys ==> users[key] in r
        invariant forall u :: u in r ==> u in users.Values
        decreases |keys|
      {
        var key :| key in keys;
        r := r + [users[key]];
        keys := keys - {key};
      }
    }

    /** `createSubmission`: a new pending submission under a fresh id. */
    method CreateSubmission(id: string, fio: string, text: string, now: int) returns (sub: Submission)
      requires id !in submissions
      modifies this
      ensures sub == Submission(id, fio, text, Pending, None, None, now, now)
      ensures submissions == old(submissions)[id := sub]
      ensures |submissions| == |old(submissions)| + 1
      ensures users == old(users) && usedTopics == old(usedTopics)
      ensures old(Valid()) ==> Valid()
    {
      sub := Submission(id, fio, text, Pending, None, None, now, now);
      submissions := submissions[id := sub];
    }

    /** `getSubmission`. */
    function GetSubmission(id: string): (r: Option<Submission>)
      reads this
      ensures r.Some? <==> id in submissions
      ensures r.Some? ==> r.value == submissions[id]
      ensures Valid() && r.Some? ==> r.value.id == id
    {
      if id in submissions then Some(submissions[id]) else None
    }

    /** `Object.values(state.submissions)`: every stored submission, each once. */
    method SubmissionValues() returns (r: seq<Submission>)
      requires KeyedById(submissions)
      ensures |r| == |submissions|
      ensures forall id :: id in submissions ==> submissions[id] in r
      ensures forall x :: x in r ==> x.id in submissions && submissions[x.id] == x
      ensures forall x :: multiset(r)[x] == if x.id in submissions && submissions[x.id] == x then 1 else 0
    {
      r := [];
      var ids := submissions.Keys;
      while ids != {}
        invariant ids <= submissions.Keys
        invariant |r| + |ids| == |submissions|
        invariant forall id :: id in submissions && id !in ids ==> submissions[id] in r
        invariant forall x :: x in r ==> x.id in submissions && submissions[x.id] == x
        invariant forall x ::
                    multiset(r)[x] == if x.id in submissions && x.id !in ids && submissions[x.id] == x then 1 else 0
        decreases |ids|
      {
        var id :| id in ids;
        r := r + [submissions[id]];
        ids := ids - {id};
      }
    }

    /** `getSubmissionByFio`: the caller's submissions, newest first, and the head of that list. */
    method LatestSubmissionFor(fio: string) returns (r: Option<Submission>)
      requires KeyedById(submissions)
      ensures IsLatest(submissions, Normalize(fio), r)
    {
      var key := Normalize(fio);
      var all := SubmissionValues();
      var mine := OwnedBy(all, key);
      if |mine| == 0 {
        r := None;
        forall id | id in submissions ensures Normalize(submissions[id].fio) != key {
          assert submissions[id] in all;
          assert submissions[id] !in mine;
        }
      } else {
        var sorted := SortNewestFirst(mine, CreatedKey);
        assert sorted[0] in multiset(mine);
        r := Some(sorted[0]);
        forall id | id in submissions && Normalize(submissions[id].fio) == key
          ensures submissions[id].createdAt <= sorted[0].createdAt
        {
          assert submissions[id] in all;
          assert submissions[id] in multiset(sorted);
          HeadIsNewest(sorted, CreatedKey, submissions[id]);
        }
      }
    }

    /** `getAllSubmissions`: all stored submissions, or those with the given status. */
    method AllSubmissions(filter: Option<string>) returns (r: seq<Submission>)
      requires KeyedById(submissions)
      ensures forall x :: x in r <==> x.id in submissions && submissions[x.id] == x && MatchesFilter(x, filter)
      ensures forall x ::
                multiset(r)[x] == if x.id in submissions && submissions[x.id] == x && MatchesFilter(x, filter) then 1 else 0
      ensures filter.None? || filter.value == "" ==> |r| == |submissions|
    {
      var all := SubmissionValues();
      if filter.None? || filter.value == "" {
        r := all;
      } else {
        r := WithStatus(all, filter.value);
      }
    }

    /** `updateSubmission`: stamp the record with the current time and store it under its id. */
    method UpdateSubmission(sub: Submission, now: int) returns (updated: Submission)
      modifies this
      ensures updated == sub.(updatedAt := now)
      ensures submissions == old(submissions)[sub.id := updated]
      ensures users == old(users) && usedTopics == old(usedTopics)
      ensures old(Valid()) ==> Valid()
    {
      updated := sub.(updatedAt := now);
      submissions := submissions[sub.id := updated];
    }
  }
}
