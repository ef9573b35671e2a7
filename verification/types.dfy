/**
  The records of the application's single persisted aggregate (lib/types.ts).
  ISO timestamps are modelled as integer milliseconds since the epoch; an
  optional TypeScript property (`x?: T`) is an `Option<T>`.
 */
module Types {

  datatype Option<+T> = None | Some(value: T)

  datatype UserLevel = Experienced | Beginner

  /** The participant's path; absent until one is chosen. */
  datatype FlowType = Random | Own

  datatype SubmissionStatus = Pending | Approved | Rejected

  /** The wire name of a status, as compared against the `status` query parameter. */
  function StatusName(s: SubmissionStatus): string {
    match s
    case Pending => "pending"
    case Approved => "approved"
    case Rejected => "rejected"
  }

  /** A participant. `completedAt` and `gitLink` are written by the completion
      route although the declared record omits them. */
  datatype UserState = UserState(
    fio: string,
    level: UserLevel,
    flow: Option<FlowType>,
    topic: Option<string>,
    chosenAt: Option<int>,
    deadlineAt: Option<int>,
    originalIdea: Option<string>,
    completedAt: Option<int>,
    gitLink: Option<string>)

  /** A self-proposed idea waiting for, or past, moderation. */
  datatype Submission = Submission(
    id: string,
    fio: string,
    text: string,
    status: SubmissionStatus,
    adminComment: Option<string>,
    approvedTopicText: Option<string>,
    createdAt: int,
    updatedAt: int)

  /** The ledger of topic ids already drawn, one list per pool. */
  datatype UsedTopics = UsedTopics(easy: seq<string>, hard: seq<string>)

  /** The whole aggregate: users keyed by normalised name, submissions keyed by id. */
  datatype AppState = AppState(
    users: map<string, UserState>,
    usedTopics: UsedTopics,
    submissions: map<string, Submission>)

  const DayMs: int := 24 * 60 * 60 * 1000

  /** The completion window: 14 days. */
  const DeadlineSpanMs: int := 14 * DayMs

  /** `if (user.topic)`: a topic counts only when present and non-empty. */
  predicate HasTopic(u: UserState) {
    u.topic.Some? && u.topic.value != ""
  }
}
