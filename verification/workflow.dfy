/**
  The two ways to a topic exclude each other: once an own idea is filed the
  wheel refuses to turn, and once the wheel assigned a topic no idea is taken.
 */
module Workflow {
  import opened Types
  import opened Http
  import opened Storage
  import opened IdeaRoute
  import opened SpinRoute

  /** After an accepted idea, spinning under the same name is refused. */
  lemma NoSpinAfterIdea(s: AppState, fio: Field, idea: Field, latest: Option<Submission>, id: string, now: int,
                        fio2: Field, easy: seq<Topic>, hard: seq<Topic>, random: real, later: int)
    requires WellFormed(s)
    requires IsNonBlankString(fio) ==> IsLatest(s.submissions, Normalize(fio.s), latest)
    requires id !in s.submissions
    requires SubmitIdea(s, fio, idea, latest, id, now).0.Ok?
    requires IsNonBlankString(fio2) && Normalize(fio2.s) == Normalize(fio.s)
    requires 0.0 <= random < 1.0
    ensures Spin(SubmitIdea(s, fio, idea, latest, id, now).1, fio2, easy, hard, random, later).0 == Err(FlowIsOwn)
  {
    var t := SubmitIdea(s, fio, idea, latest, id, now).1;
    var key := Normalize(fio.s);
    assert t.users[key] == s.users[key].(flow := Some(Own));
  }

  /** After the wheel assigned a topic, an idea under the same name is refused. */
  lemma NoIdeaAfterSpin(s: AppState, fio: Field, easy: seq<Topic>, hard: seq<Topic>, random: real, now: int,
                        fio2: Field, idea: Field, latest: Option<Submission>, id: string, later: int)
    requires 0.0 <= random < 1.0
    requires Spin(s, fio, easy, hard, random, now).0.Ok?
    requires IsNonBlankString(fio2) && Normalize(fio2.s) == Normalize(fio.s) && IsNonBlankString(idea)
    requires IsLatest(s.submissions, Normalize(fio2.s), latest)
    requires id !in s.submissions
    ensures SubmitIdea(Spin(s, fio, easy, hard, random, now).1, fio2, idea, latest, id, later).0 == Err(TopicAlreadySet)
  {
    var out := Spin(s, fio, easy, hard, random, now);
    assert out.1.users[Normalize(fio.s)] == out.0.value.user;
  }
}
