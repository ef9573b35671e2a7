/**
  POST /api/login (app/api/login/route.ts): register a participant by name and
  level, or return the record already stored under that name.
 */
module LoginRoute {
  import opened Text
  import opened Types
  import opened Http
  import opened Storage

  /** The wire name of a level. */
  function LevelName(l: UserLevel): string {
    match l
    case Experienced => "experienced"
    case Beginner => "beginner"
  }

  /** The `level` guard: only the two exact wire names are accepted. */
  function ParseLevel(level: Field): (r: Option<UserLevel>)
    ensures r.Some? <==> level == Str("experienced") || level == Str("beginner")
    ensures r.Some? ==> level == Str(LevelName(r.value))
  {
    if level == Str("experienced") then Some(Experienced)
    else if level == Str("beginner") then Some(Beginner)
    else None
  }

  /** Every level's wire name is accepted and parsed back to the level. */
  lemma ParseLevelName(l: UserLevel)
    ensures ParseLevel(Str(LevelName(l))) == Some(l)
  {
  }

  /** The answer: the record, and whether it already existed ("welcome back"). */
  datatype LoginReply = LoginReply(user: UserState, returning: bool)

  /** A freshly registered participant: trimmed name, level, nothing else. */
  function NewUser(fio: string, level: UserLevel): UserState {
    UserState(Trim(fio), level, None, None, None, None, None, None, None)
  }

  /** The handler as a function of the stored aggregate. */
  function Login(s: AppState, fio: Field, level: Field): (out: (Result<LoginReply>, AppState))
    ensures out.0.Err? ==> out.1 == s
    ensures out.0 == Err(FioRequired) <==> !IsNonBlankString(fio)
    ensures out.0 == Err(LevelInvalid) <==> IsNonBlankString(fio) && ParseLevel(level).None?
    ensures out.0.Ok? <==> IsNonBlankString(fio) && ParseLevel(level).Some?
    ensures out.0.Ok? ==>
      && (out.0.value.returning <==> Normalize(fio.s) in s.users)
      && Normalize(fio.s) in out.1.users
      && out.1.users[Normalize(fio.s)] == out.0.value.user
    ensures out.0.Ok? && out.0.value.returning ==> out.1 == s
    ensures out.0.Ok? && !out.0.value.returning ==>
      && out.0.value.user.fio == Trim(fio.s)
      && Some(out.0.value.user.level) == ParseLevel(level)
      && out.0.value.user.flow.None? && !HasTopic(out.0.value.user)
      && out.1 == s.(users := s.users[Normalize(fio.s) := out.0.value.user])
  {
    if !IsNonBlankString(fio) then (Err(FioRequired), s)
    else
      var lv := ParseLevel(level);
      if lv.None? then (Err(LevelInvalid), s)
      else
        var key := Normalize(fio.s);
        if key in s.users then (Ok(LoginReply(s.users[key], true)), s)
        else
          var user := NewUser(fio.s, lv.value);
          NormalizeTrim(fio.s);
          (Ok(LoginReply(user, false)), PutUser(s, user))
  }

  /** Every answer keeps the aggregate well formed, and the aggregate only evolves. */
  lemma LoginKeepsWellFormed(s: AppState, fio: Field, level: Field)
    requires WellFormed(s)
    ensures WellFormed(Login(s, fio, level).1) && Evolves(s, Login(s, fio, level).1)
  {
    var out := Login(s, fio, level);
    if out.0.Ok? && !out.0.value.returning {
      var user := out.0.value.user;
      assert out.1 == PutUser(s, user);
      PutUserKeepsWellFormed(s, user);
      PutUserEvolves(s, user);
    } else {
      EvolvesReflexive(s);
    }
  }

  /** Logging in again under any spelling of the name that normalises the same
      way returns the stored record, whatever level is sent, and changes nothing. */
  lemma LoginAgain(s: AppState, fio: Field, level: Field, fio2: Field, level2: Field)
    requires Login(s, fio, level).0.Ok?
    requires IsNonBlankString(fio2) && Normalize(fio2.s) == Normalize(fio.s)
    requires ParseLevel(level2).Some?
    ensures Login(Login(s, fio, level).1, fio2, level2)
         == (Ok(LoginReply(Login(s, fio, level).0.value.user, true)), Login(s, fio, level).1)
  {
  }

  /** The handler against the store. */
  method Post(store: Store, fio: Field, level: Field) returns (r: Result<LoginReply>)
    modifies store
    ensures (r, store.State()) == Login(old(store.State()), fio, level)
  {
    if !IsNonBlankString(fio) {
      return Err(FioRequired);
    }
    var lv := ParseLevel(level);
    if lv.None? {
      return Err(LevelInvalid);
    }
    var existing := store.GetUser(fio.s);
    if existing.Some? {
      return Ok(LoginReply(existing.value, true));
    }
    var user := NewUser(fio.s, lv.value);
    NormalizeTrim(fio.s);
    store.SaveUser(user);
    r := Ok(LoginReply(user, false));
  }
}
