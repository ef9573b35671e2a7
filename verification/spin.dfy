/**
  POST /api/spin (app/api/spin/route.ts): the wheel. A participant without a
  topic, and not on the own-topic path, draws a random topic from the pool of
  their level that nobody has drawn yet; the drawn id is recorded in that
  pool's ledger so that it is never handed out again.
 */
module SpinRoute {
  import opened Text
  import opened Types
  import opened Http
  import opened Storage

  /** An entry of a topic pool file. */
  datatype Topic = Topic(id: string, title: string, description: string, acceptanceCriteria: string)

  /** The success answer. */
  datatype SpinReply = SpinReply(topic: string, topicId: string, deadline: int, user: UserState)

  /** The pool a level draws from: experienced participants use the hard pool. */
  function PoolFor(level: UserLevel, easy: seq<Topic>, hard: seq<Topic>): seq<Topic> {
    if level == Experienced then hard else easy
  }

  /** The ledger of the level's pool. */
  function Ledger(u: UsedTopics, level: UserLevel): seq<string> {
    if level == Experienced then u.hard else u.easy
  }

  /** `usedTopics[poolKey].push(id)`. */
  function Record(u: UsedTopics, level: UserLevel, id: string): (r: UsedTopics)
    ensures Ledger(r, level) == Ledger(u, level) + [id]
    ensures forall other :: other != level ==> Ledger(r, other) == Ledger(u, other)
  {
    if level == Experienced then u.(hard := u.hard + [id]) else u.(easy := u.easy + [id])
  }

  /** The topics of the pool whose id is not in the ledger, in pool order. */
  function Available(pool: seq<Topic>, ledger: seq<string>): (r: seq<Topic>)
    ensures forall t :: t in r <==> t in pool && t.id !in ledger
    ensures |r| <= |pool|
  {
    if pool == [] then []
    else (if pool[0].id in ledger then [] else [pool[0]]) + Available(pool[1..], ledger)
  }

  /** `Math.floor(random * n)` for a `Math.random()` draw. */
  function PickIndex(random: real, n: nat): (i: nat)
    requires 0.0 <= random < 1.0 && n > 0
    ensures i < n
    ensures i as real <= random * n as real < i as real + 1.0
  {
    var x := random * n as real;
    assert x < n as real by {
      assert n as real - x == (1.0 - random) * n as real;
    }
    x.Floor
  }

  /** The topic the draw selects among the available ones. */
  function Drawn(pool: seq<Topic>, ledger: seq<string>, random: real): (t: Topic)
    requires 0.0 <= random < 1.0 && |Available(pool, ledger)| > 0
    ensures t in pool && t.id !in ledger
  {
    var avail := Available(pool, ledger);
    avail[PickIndex(random, |avail|)]
  }

  /** The draw `i / n` selects index `i` of `n`. */
  lemma PickIndexOfFraction(i: nat, n: nat)
    requires i < n
    ensures 0.0 <= i as real / n as real < 1.0
    ensures PickIndex(i as real / n as real, n) == i
  {
    var q := i as real / n as real;
    assert q * n as real == i as real;
  }

  /** Every topic still available comes out of some draw: the `i`-th available
      topic is the one drawn by `i / n`. */
  lemma EveryAvailableTopicCanBeDrawn(pool: seq<Topic>, ledger: seq<string>, i: nat)
    requires i < |Available(pool, ledger)|
    ensures 0.0 <= i as real / |Available(pool, ledger)| as real < 1.0
    ensures Drawn(pool, ledger, i as real / |Available(pool, ledger)| as real) == Available(pool, ledger)[i]
  {
    PickIndexOfFraction(i, |Available(pool, ledger)|);
  }

  /** The text stored as the participant's topic. */
  function ComposeTopic(t: Topic): string {
    t.title + "\n\n" + t.description + "\n\nКритерии готовности: " + t.acceptanceCriteria
  }

  /** The participant after the draw: random path, topic, and a running 14-day timer. */
  function Assign(u: UserState, topic: string, now: int): UserState {
    u.(flow := Some(Random), topic := Some(topic), chosenAt := Some(now), deadlineAt := Some(now + DeadlineSpanMs))
  }

  /** A consistent participant without a topic, and not on the own-topic path,
      stays consistent when assigned a topic, and only evolves. */
  lemma AssignEvolves(u: UserState, topic: string, now: int)
    requires UserConsistent(u) && !HasTopic(u) && u.flow != Some(Own) && topic != ""
    ensures UserConsistent(Assign(u, topic, now))
    ensures UserEvolves(u, Assign(u, topic, now))
  {
    assert u.flow.Some? ==> u.flow.value == Random;
  }

  /** The handler as a function of the stored aggregate. `easy` and `hard` are
      the two pool files, `random` the `Math.random()` draw and `now` the clock. */
  function Spin(s: AppState, fio: Field, easy: seq<Topic>, hard: seq<Topic>, random: real, now: int)
    : (out: (Result<SpinReply>, AppState))
    requires 0.0 <= random < 1.0
    ensures out.0.Err? ==> out.1 == s
    ensures out.0 == Err(FioRequired) <==> !IsNonBlankString(fio)
    ensures out.0 == Err(UserNotFound) <==> IsNonBlankString(fio) && Normalize(fio.s) !in s.users
    ensures out.0 == Err(TopicAlreadySet) <==>
      IsNonBlankString(fio) && Normalize(fio.s) in s.users && HasTopic(s.users[Normalize(fio.s)])
    ensures out.0 == Err(FlowIsOwn) <==>
      && IsNonBlankString(fio) && Normalize(fio.s) in s.users && !HasTopic(s.users[Normalize(fio.s)])
      && s.users[Normalize(fio.s)].flow == Some(Own)
    ensures out.0 == Err(PoolExhausted) <==>
      && IsNonBlankString(fio) && Normalize(fio.s) in s.users
      && var u := s.users[Normalize(fio.s)];
      && !HasTopic(u) && u.flow != Some(Own)
      && forall t :: t in PoolFor(u.level, easy, hard) ==> t.id in Ledger(s.usedTopics, u.level)
    ensures out.0.Ok? <==>
      && IsNonBlankString(fio) && Normalize(fio.s) in s.users
      && var u := s.users[Normalize(fio.s)];
      && !HasTopic(u) && u.flow != Some(Own)
      && exists t :: t in PoolFor(u.level, easy, hard) && t.id !in Ledger(s.usedTopics, u.level)
    ensures out.0.Ok? ==>
      var key := Normalize(fio.s);
      && key in s.users
      && var u := s.users[key];
      && var pool := PoolFor(u.level, easy, hard);
      && var ledger := Ledger(s.usedTopics, u.level);
      && (exists t :: t in pool && t.id !in ledger)
      && var t := Drawn(pool, ledger, random);
      && out.0.value == SpinReply(ComposeTopic(t), t.id, now + DeadlineSpanMs, Assign(u, ComposeTopic(t), now))
      && out.1 == AppState(s.users[key := out.0.value.user], Record(s.usedTopics, u.level, t.id), s.submissions)
  {
    if !IsNonBlankString(fio) then (Err(FioRequired), s)
    else
      var key := Normalize(fio.s);
      if key !in s.users then (Err(UserNotFound), s)
      else
        var u := s.users[key];
        if HasTopic(u) then (Err(TopicAlreadySet), s)
        else if u.flow == Some(Own) then (Err(FlowIsOwn), s)
        else
          var pool := PoolFor(u.level, easy, hard);
          var ledger := Ledger(s.usedTopics, u.level);
          var avail := Available(pool, ledger);
          if |avail| == 0 then
            assert forall t :: t in pool ==> t.id in ledger;
            (Err(PoolExhausted), s)
          else
            assert avail[0] in pool;
            var t := Drawn(pool, ledger, random);
            var v := Assign(u, ComposeTopic(t), now);
            (Ok(SpinReply(ComposeTopic(t), t.id, now + DeadlineSpanMs, v)),
             AppState(s.users[key := v], Record(s.usedTopics, u.level, t.id), s.submissions))
  }

  /** Every answer keeps the aggregate well formed, and the aggregate only evolves. */
  lemma SpinKeepsWellFormed(s: AppState, fio: Field, easy: seq<Topic>, hard: seq<Topic>, random: real, now: int)
    requires 0.0 <= random < 1.0
    requires WellFormed(s)
    ensures WellFormed(Spin(s, fio, easy, hard, random, now).1)
    ensures Evolves(s, Spin(s, fio, easy, hard, random, now).1)
  {
    var out := Spin(s, fio, easy, hard, random, now);
    if out.0.Ok? {
      var key := Normalize(fio.s);
      var u := s.users[key];
      var v := out.0.value.user;
      AssignEvolves(u, out.0.value.topic, now);
      ReplaceUserKeepsWellFormed(s, key, v);
      ReplaceUserEvolves(s, key, v);
      var t := s.(users := s.users[key := v]);
      var used := Record(s.usedTopics, u.level, out.0.value.topicId);
      assert out.1 == t.(usedTopics := used);
      assert s.usedTopics.easy <= used.easy && s.usedTopics.hard <= used.hard;
    } else {
      EvolvesReflexive(s);
    }
  }

  // ------------------------------------------------------------ the ledgers

  predicate Distinct(xs: seq<string>) {
    forall i, j :: 0 <= i < j < |xs| ==> xs[i] != xs[j]
  }

  function PoolIds(pool: seq<Topic>): set<string> {
    set t | t in pool :: t.id
  }

  /** A ledger lists ids of its pool, each at most once. */
  predicate LedgerSound(ledger: seq<string>, pool: seq<Topic>) {
    Distinct(ledger) && forall id :: id in ledger ==> id in PoolIds(pool)
  }

  predicate LedgersSound(u: UsedTopics, easy: seq<Topic>, hard: seq<Topic>) {
    LedgerSound(u.easy, easy) && LedgerSound(u.hard, hard)
  }

  /** Appending an id of the pool that is not yet listed keeps a ledger sound. */
  lemma AppendKeepsLedgerSound(ledger: seq<string>, pool: seq<Topic>, t: Topic)
    requires LedgerSound(ledger, pool) && t in pool && t.id !in ledger
    ensures LedgerSound(ledger + [t.id], pool)
  {
    var r := ledger + [t.id];
    forall i, j | 0 <= i < j < |r| ensures r[i] != r[j] {
      if j == |ledger| {
        assert r[i] == ledger[i];
      } else {
        assert r[i] == ledger[i] && r[j] == ledger[j];
      }
    }
    assert t.id in PoolIds(pool);
  }

  /** Every answer keeps both ledgers sound: no topic is ever handed out twice. */
  lemma SpinKeepsLedgersSound(s: AppState, fio: Field, easy: seq<Topic>, hard: seq<Topic>, random: real, now: int)
    requires 0.0 <= random < 1.0
    requires LedgersSound(s.usedTopics, easy, hard)
    ensures LedgersSound(Spin(s, fio, easy, hard, random, now).1.usedTopics, easy, hard)
  {
    var out := Spin(s, fio, easy, hard, random, now);
    if out.0.Ok? {
      var level := s.users[Normalize(fio.s)].level;
      var pool := PoolFor(level, easy, hard);
      var t := Drawn(pool, Ledger(s.usedTopics, level), random);
      AppendKeepsLedgerSound(Ledger(s.usedTopics, level), pool, t);
    }
  }

  function Elements(xs: seq<string>): set<string> {
    set x | x in xs
  }

  /** The ids of a sequence without repetitions are as many as its elements. */
  lemma {:induction false} DistinctCard(xs: seq<string>)
    requires Distinct(xs)
    ensures |Elements(xs)| == |xs|
  {
    if xs != [] {
      var rest := xs[1..];
      assert Distinct(rest) by {
        forall i, j | 0 <= i < j < |rest| ensures rest[i] != rest[j] {
          assert rest[i] == xs[i + 1] && rest[j] == xs[j + 1];
        }
      }
      DistinctCard(rest);
      assert xs[0] !in rest by {
        forall k | 0 <= k < |rest| ensures rest[k] != xs[0] {
          assert rest[k] == xs[k + 1];
        }
      }
      assert Elements(xs) == Elements(rest) + {xs[0]} by {
        assert xs == [xs[0]] + rest;
      }
    }
  }

  /** A sound ledger is never longer than its pool has distinct ids: each pool
      topic is drawn at most once, so at most that many participants per pool
      get a topic from the wheel. */
  lemma LedgerBounded(ledger: seq<string>, pool: seq<Topic>)
    requires LedgerSound(ledger, pool)
    ensures |ledger| <= |PoolIds(pool)|
  {
    DistinctCard(ledger);
    SubsetCard(Elements(ledger), PoolIds(pool));
  }

  lemma {:induction false} SubsetCard(a: set<string>, b: set<string>)
    requires a <= b
    ensures |a| <= |b|
    decreases |a|
  {
    if a != {} {
      var x :| x in a;
      SubsetCard(a - {x}, b - {x});
    }
  }

  lemma {:induction false} SubsetCardDiff(a: set<string>, b: set<string>)
    requires a <= b
    ensures |b - a| == |b| - |a|
    decreases |a|
  {
    if a != {} {
      var x :| x in a;
      SubsetCardDiff(a - {x}, b - {x});
      assert b - a == (b - {x}) - (a - {x});
    }
  }

  /** A sound ledger as long as its pool has distinct ids lists every one of them. */
  lemma FullLedgerCoversPool(ledger: seq<string>, pool: seq<Topic>)
    requires LedgerSound(ledger, pool) && |ledger| >= |PoolIds(pool)|
    ensures forall t :: t in pool ==> t.id in ledger
  {
    DistinctCard(ledger);
    SubsetCardDiff(Elements(ledger), PoolIds(pool));
    forall t | t in pool ensures t.id in ledger {
      assert t.id in PoolIds(pool);
      assert PoolIds(pool) - Elements(ledger) == {};
    }
  }

  /** Once as many topics were drawn from a pool as it has distinct ids, every
      further draw for that level is refused as exhausted. */
  lemma FullPoolIsExhausted(s: AppState, fio: Field, easy: seq<Topic>, hard: seq<Topic>, random: real, now: int)
    requires 0.0 <= random < 1.0
    requires LedgersSound(s.usedTopics, easy, hard)
    requires IsNonBlankString(fio) && Normalize(fio.s) in s.users
    requires var u := s.users[Normalize(fio.s)];
      !HasTopic(u) && u.flow != Some(Own)
      && |Ledger(s.usedTopics, u.level)| >= |PoolIds(PoolFor(u.level, easy, hard))|
    ensures Spin(s, fio, easy, hard, random, now).0 == Err(PoolExhausted)
  {
    var level := s.users[Normalize(fio.s)].level;
    FullLedgerCoversPool(Ledger(s.usedTopics, level), PoolFor(level, easy, hard));
  }

  /** Of two successful draws in a row by participants of the same level, the
      second never hands out the topic of the first. */
  lemma NoTopicHandedOutTwice(s: AppState, fio1: Field, fio2: Field, easy: seq<Topic>, hard: seq<Topic>,
                              random1: real, random2: real, now1: int, now2: int)
    requires 0.0 <= random1 < 1.0 && 0.0 <= random2 < 1.0
    requires Spin(s, fio1, easy, hard, random1, now1).0.Ok?
    requires Spin(Spin(s, fio1, easy, hard, random1, now1).1, fio2, easy, hard, random2, now2).0.Ok?
    requires Spin(s, fio1, easy, hard, random1, now1).0.value.user.level
          == Spin(Spin(s, fio1, easy, hard, random1, now1).1, fio2, easy, hard, random2, now2).0.value.user.level
    ensures Spin(s, fio1, easy, hard, random1, now1).0.value.topicId
         != Spin(Spin(s, fio1, easy, hard, random1, now1).1, fio2, easy, hard, random2, now2).0.value.topicId
  {
    var first := Spin(s, fio1, easy, hard, random1, now1);
    var level := first.0.value.user.level;
    assert Ledger(first.1.usedTopics, level) == Ledger(s.usedTopics, level) + [first.0.value.topicId];
  }

  /** The handler against the store: `getUser`, then `readState`, the draw, and `writeState`. */
  method Post(store: Store, fio: Field, easy: seq<Topic>, hard: seq<Topic>, random: real, now: int)
    returns (r: Result<SpinReply>)
    requires 0.0 <= random < 1.0
    modifies store
    ensures (r, store.State()) == Spin(old(store.State()), fio, easy, hard, random, now)
  {
    if !IsNonBlankString(fio) {
      return Err(FioRequired);
    }
    var user := store.GetUser(fio.s);
    if user.None? {
      return Err(UserNotFound);
    }
    var u := user.value;
    if HasTopic(u) {
      return Err(TopicAlreadySet);
    }
    if u.flow == Some(Own) {
      return Err(FlowIsOwn);
    }
    var state := store.State();
    var pool := PoolFor(u.level, easy, hard);
    var ledger := Ledger(state.usedTopics, u.level);
    var avail := Available(pool, ledger);
    if |avail| == 0 {
      return Err(PoolExhausted);
    }
    var selected := avail[PickIndex(random, |avail|)];
    var topicText := ComposeTopic(selected);
    var key := Normalize(fio.s);
    var v := Assign(u, topicText, now);
    store.WriteState(AppState(state.users[key := v], Record(state.usedTopics, u.level, selected.id), state.submissions));
    r := Ok(SpinReply(topicText, selected.id, now + DeadlineSpanMs, v));
  }
}
