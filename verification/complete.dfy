/**
  POST /api/complete (app/api/complete/route.ts): a participant holding a
  topic marks the assignment done, optionally with a repository link.
 */
module CompleteRoute {
  import opened Text
  import opened Types
  import opened Http
  import opened Storage

  /** `gitLink?.trim() || undefined` for a string or a missing link: the
      trimmed link, with an empty one dropped. */
  function LinkOf(gitLink: Field): (r: Option<string>)
    requires !gitLink.Other?
    ensures r.Some? <==> gitLink.Str? && Trim(gitLink.s) != ""
    ensures r.Some? ==> r.value == Trim(gitLink.s) && Trimmed(r.value)
  {
    if gitLink.Str? then
      TrimSpec(gitLink.s);
      if Trim(gitLink.s) == "" then None else Some(Trim(gitLink.s))
    else None
  }

  /** Whether the request gets past the guards on the name and the record. */
  predicate Completable(s: AppState, fio: Field) {
    && fio.Str? && Trim(fio.s) != "" && Normalize(fio.s) in s.users
    && HasTopic(s.users[Normalize(fio.s)]) && s.users[Normalize(fio.s)].completedAt.None?
  }

  /** The handler as a function of the stored aggregate. A name that is truthy
      but not a string, and a link that is neither missing nor a string, make
      the handler throw: the answer is the generic server error. */
  function Complete(s: AppState, fio: Field, gitLink: Field, now: int): (out: (Result<UserState>, AppState))
    ensures out.0.Err? ==> out.1 == s
    ensures out.0 == Err(FioRequired) <==> !Truthy(fio) || (fio.Str? && Trim(fio.s) == "")
    ensures out.0 == Err(InternalError) <==> fio == Other(true) || (Completable(s, fio) && gitLink.Other?)
    ensures out.0 == Err(UserNotFound) <==> fio.Str? && Trim(fio.s) != "" && Normalize(fio.s) !in s.users
    ensures out.0 == Err(NoTopic) <==>
      fio.Str? && Trim(fio.s) != "" && Normalize(fio.s) in s.users && !HasTopic(s.users[Normalize(fio.s)])
    ensures out.0 == Err(AlreadyCompleted) <==>
      && fio.Str? && Trim(fio.s) != "" && Normalize(fio.s) in s.users
      && HasTopic(s.users[Normalize(fio.s)]) && s.users[Normalize(fio.s)].completedAt.Some?
    ensures out.0.Ok? <==> Completable(s, fio) && !gitLink.Other?
    ensures out.0.Ok? ==>
      && out.0.value == s.users[Normalize(fio.s)].(completedAt := Some(now), gitLink := LinkOf(gitLink))
      && out.1 == PutUser(s, out.0.value)
  {
    if !Truthy(fio) then (Err(FioRequired), s)
    else if fio.Other? then (Err(InternalError), s)
    else if Trim(fio.s) == "" then (Err(FioRequired), s)
    else
      var key := Normalize(fio.s);
      if key !in s.users then (Err(UserNotFound), s)
      else
        var u := s.users[key];
        if !HasTopic(u) then (Err(NoTopic), s)
        else if u.completedAt.Some? then (Err(AlreadyCompleted), s)
        else if gitLink.Other? then (Err(InternalError), s)
        else
          var v := u.(completedAt := Some(now), gitLink := LinkOf(gitLink));
          (Ok(v), PutUser(s, v))
  }

  /** Every answer keeps the aggregate well formed, and the aggregate only evolves. */
  lemma CompleteKeepsWellFormed(s: AppState, fio: Field, gitLink: Field, now: int)
    requires WellFormed(s)
    ensures WellFormed(Complete(s, fio, gitLink, now).1) && Evolves(s, Complete(s, fio, gitLink, now).1)
  {
    var out := Complete(s, fio, gitLink, now);
    if out.0.Ok? {
      var key := Normalize(fio.s);
      var v := out.0.value;
      assert Normalize(v.fio) == key;
      ReplaceUserKeepsWellFormed(s, key, v);
      ReplaceUserEvolves(s, key, v);
      assert out.1 == s.(users := s.users[key := v]);
    } else {
      EvolvesReflexive(s);
    }
  }

  /** Completion happens once: once it succeeded, every later attempt under the
      same name is refused as already completed and changes nothing. */
  lemma CompleteOnce(s: AppState, fio: Field, gitLink: Field, now: int, gitLink2: Field, later: int)
    requires WellFormed(s)
    requires Complete(s, fio, gitLink, now).0.Ok?
    ensures Complete(Complete(s, fio, gitLink, now).1, fio, gitLink2, later).0 == Err(AlreadyCompleted)
  {
    var v := Complete(s, fio, gitLink, now).0.value;
    assert Normalize(v.fio) == Normalize(fio.s);
  }

  /** The handler against the store. */
  method Post(store: Store, fio: Field, gitLink: Field, now: int) returns (r: Result<UserState>)
    modifies store
    ensures (r, store.State()) == Complete(old(store.State()), fio, gitLink, now)
  {
    if !Truthy(fio) {
      return Err(FioRequired);
    }
    if fio.Other? {
      return Err(InternalError);
    }
    if Trim(fio.s) == "" {
      return Err(FioRequired);
    }
    var user := store.GetUser(fio.s);
    if user.None? {
      return Err(UserNotFound);
    }
    var u := user.value;
    if !HasTopic(u) {
      return Err(NoTopic);
    }
    if u.completedAt.Some? {
      return Err(AlreadyCompleted);
    }
    if gitLink.Other? {
      return Err(InternalError);
    }
    var updated := u.(completedAt := Some(now), gitLink := LinkOf(gitLink));
    store.SaveUser(updated);
    r := Ok(updated);
  }
}
