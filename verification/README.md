# Topic wheel: the participant workflow, modelled in Dafny

The application lets participants of a coding exercise obtain a project topic
in one of two ways:

- **The wheel.** A participant spins for a random topic from the pool of their
  level. A topic once drawn is never handed out again.
- **An own idea.** A participant proposes an idea, which waits for moderation.

Once a topic is held, a 14-day timer runs until the participant marks the work
complete. Administrators, named in an allowlist, list the participants and the
ideas.

All state lives in one persisted aggregate (`data/state.json`), made of:

- users keyed by their normalised name (trimmed, then lower-cased);
- submissions keyed by id;
- two ledgers of drawn topic ids, one per pool.

The model takes the file system away. The aggregate becomes the `AppState`
datatype and the `Storage.Store` class, whose methods update its maps in place
as the storage helpers do.

Each route handler appears twice:

- a **function** of the stored aggregate (`LoginRoute.Login`,
  `IdeaRoute.SubmitIdea`, `SpinRoute.Spin`, `MeRoute.Me`,
  `CompleteRoute.Complete`), returning the answer and the new aggregate;
- a **method** against the `Store` (`Post`/`Get`), proved equal to that function.

The contracts state each guard as an if-and-only-if in the handlers' own
order, and that every error leaves the aggregate untouched. Lemmas then prove:

- every route keeps the aggregate well formed (`Storage.WellFormed`);
- the aggregate only *evolves* (`Storage.Evolves`): nobody is removed, a flow,
  a topic, a started timer or a completion is never changed, submissions are
  never altered, and the ledgers only grow;
- the wheel never hands out a topic twice, and refuses once a pool is used up;
- the own-idea path and the wheel exclude each other;
- the timer starts at most once;
- completion happens once;
- no participant ever has two pending ideas, as long as the clock reads later
  than every stored creation time when an idea is filed.

Three smaller pieces are modelled too:

- the start-up configuration check (`scripts/check-env.js`): `.env` parsing
  with no-override precedence, and the exit decision;
- the administrator allowlist;
- the wheel's item layout and topic title (`app/components/TopicWheel.tsx`).
  The title is proved to round-trip with the topic text the wheel composes.

JavaScript's string built-ins are written out in module `Text`: `trim` with
ECMAScript white space, `toLowerCase`, `split`, `join`, and `length` in UTF-16
code units.

Values from outside become parameters:

- time is integer milliseconds, passed in as `now`;
- `Math.random()` is a real `random` in [0, 1);
- the fresh submission id is `id`;
- the topic pools are `easy` and `hard`;
- environment files are given by their content, and file existence and
  writability as a set and a boolean.

Where the code does something other than its declared types or its comments
suggest, the model follows the code:

- The completion route stores `completedAt` and `gitLink`, which
  `lib/types.ts` does not declare. The model adds both fields.
- An `.env` key is not trimmed. `KEY = v` binds the key `"KEY "`, and
  `CheckEnv.ParseLine` keeps it so.
- The completion route calls `fio.trim()` without checking that `fio` is a
  string. A truthy non-string name therefore throws, and the handler answers
  with its generic server error (`InternalError`, status 500). The same
  happens for a `gitLink` that is neither missing nor a string.

## Model

| member | source | states |
|---|---|---|
| Text.TrimSpec | lib/storage.ts:54 | `trim` leaves a slice of its input with no white space at either end, and cuts only white space before and after it |
| Text.TrimUnique | lib/storage.ts:54 | `trim` of blank + trimmed + blank is the trimmed middle, so those properties determine `trim` |
| Text.TrimIdempotent | lib/storage.ts:54 | trimming twice is trimming once |
| Text.TrimPadding | lib/storage.ts:54 | white space added around a string does not survive `trim` |
| Text.TrimEmptyIffBlank | app/api/login/route.ts:13 | `x.trim().length === 0` holds exactly for strings made only of white space |
| Text.ToLowerCaseIdempotent | lib/storage.ts:54 | lower-casing twice is lower-casing once |
| Text.TrimToLowerCaseCommute | lib/storage.ts:54 | trimming and lower-casing commute |
| Text.Utf16Length | app/api/idea/route.ts:58 | `length` counts one or two UTF-16 units per character, and is zero exactly for the empty string |
| Text.Split | scripts/check-env.js:22 | the pieces of a split hold no separator, join back to the input, and the first piece is the text before the first separator |
| Text.SplitJoin | app/api/admin/users/route.ts:15-17 | splitting a join of separator-free pieces gives the pieces back |
| Text.SplitSingleIff | scripts/check-env.js:23 | a split yields a single piece exactly when the separator does not occur |
| Sorting.SortNewestFirst | app/api/admin/submissions/route.ts:52-54 | the sort's result is ordered newest first and is a permutation of its input |
| Sorting.HeadIsNewest | lib/storage.ts:123-127 | the head of a newest-first list is at least as new as every element |
| Storage.NormalizeIdempotent | lib/storage.ts:53-55 | normalising a key gives the key back |
| Storage.NormalizeIgnoresPadding | lib/storage.ts:53-55 | names differing only in surrounding white space have the same key |
| Storage.NormalizeIgnoresCase | lib/storage.ts:53-55 | names differing only in letter case have the same key |
| Storage.NormalizeTrim | lib/storage.ts:53-55 | the trimmed name has the key of the name as typed |
| Storage.NormalizeEmptyIffBlank | lib/storage.ts:53-55 | only a blank name has the empty key |
| Storage.PutUserKeepsWellFormed | lib/storage.ts:67-72 | storing a consistent record under its own key keeps every user under its own key and every submission under its own id |
| Storage.PutUserEvolves | lib/storage.ts:67-72 | storing a new record, or an evolution of the stored one, only evolves the aggregate |
| Storage.ReplaceUserKeepsWellFormed | lib/types.ts:30 | replacing a stored record by a consistent one with the same name keeps the aggregate well formed |
| Storage.ReplaceUserEvolves | lib/types.ts:30 | replacing a stored record by an evolution of it only evolves the aggregate |
| Storage.AddSubmissionKeepsWellFormed | lib/storage.ts:99 | filing a submission under a fresh id keeps the aggregate well formed and changes no existing entry |
| Storage.ReadAfterWrite | lib/storage.ts:28-50 | reading back what was written gives the same aggregate; a file without submissions or ledgers reads as empty ones; the initial file is well formed |
| Storage.LatestExists | lib/storage.ts:112-128 | for every name some answer of the latest-submission lookup exists: nothing when no submission matches, otherwise a matching one with the greatest creation time |
| Storage.OwnedBy | lib/storage.ts:116-118 | the filter keeps exactly the submissions whose normalised name is the key |
| Storage.WithStatus | lib/storage.ts:139 | the filter keeps exactly the submissions with the given status, each as many times as it occurs in the input, and drops every other one |
| Storage.Store.Load | lib/storage.ts:28-38 | the loaded aggregate is the file's content with missing submissions and ledgers filled in as empty |
| Storage.Store.WriteState | lib/storage.ts:41-50 | after writing, the stored aggregate is the one written |
| Storage.Store.GetUser | lib/storage.ts:60-64 | a record is found exactly when one is stored under the normalised name, and it is that record |
| Storage.Store.SaveUser | lib/storage.ts:67-72 | the record is stored under the normalised form of its own name and nothing else changes; a consistent record keeps the store valid |
| Storage.Store.AllUsers | lib/storage.ts:75-78 | the list holds every stored user, only stored users, and as many entries as there are users |
| Storage.Store.CreateSubmission | lib/storage.ts:83-103 | exactly one new pending submission is filed under the fresh id, with creation time equal to update time; users and ledgers are unchanged |
| Storage.Store.GetSubmission | lib/storage.ts:106-109 | a submission is found exactly when its id is stored, and it is the stored one |
| Storage.Store.SubmissionValues | lib/storage.ts:135 | the list holds every stored submission exactly once and nothing else |
| Storage.Store.LatestSubmissionFor | lib/storage.ts:112-128 | nothing when no submission's normalised name matches, otherwise a matching submission with the greatest creation time |
| Storage.Store.AllSubmissions | lib/storage.ts:131-140 | each stored submission with the requested status exactly once, or all of them when no status (or an empty one) is given, and nothing else |
| Storage.Store.UpdateSubmission | lib/storage.ts:143-150 | the submission is stamped with the current time and stored under its id; no other entry, user or ledger changes |
| LoginRoute.ParseLevel | app/api/login/route.ts:20-25 | a level is accepted exactly when it is the string `experienced` or `beginner` |
| LoginRoute.ParseLevelName | app/api/login/route.ts:20-25 | each level's wire name parses back to that level |
| LoginRoute.Login | app/api/login/route.ts:12-49 | each 400 exactly under its guard, no change on error; an existing record is returned unchanged whatever the level; a new record has the trimmed name, the given level and no flow or topic, and is stored under the normalised name |
| LoginRoute.LoginKeepsWellFormed | app/api/login/route.ts:38-44 | registration keeps the aggregate well formed and only evolves it |
| LoginRoute.LoginAgain | app/api/login/route.ts:27-36 | logging in again under any spelling with the same key returns the stored record and changes nothing |
| LoginRoute.Post | app/api/login/route.ts:7-49 | the handler's answer and new store are those of `Login` |
| IdeaRoute.SubmitIdea | app/api/idea/route.ts:11-89 | each error (name, idea, unknown user, topic held, random flow, idea under 20 UTF-16 units, pending idea) exactly under its guard, in the handler's order, success exactly when every guard passes, and no change on error; a rejected latest idea does not block; success files one pending submission holding the trimmed idea and sets only the flow to own |
| IdeaRoute.FileIdeaKeepsWellFormed | app/api/idea/route.ts:83-89 | filing the idea and locking the participant into the own path keep the aggregate well formed and only evolve it |
| IdeaRoute.SubmitIdeaKeepsWellFormed | app/api/idea/route.ts:11-89 | every answer keeps the aggregate well formed and only evolves it |
| IdeaRoute.PendingIsUnique | app/api/idea/route.ts:67-78 | when pending ideas are the newest under their name, nobody has two pending ideas |
| IdeaRoute.NoPendingUnderKey | app/api/idea/route.ts:67-78 | when the latest idea under a name is not pending, none under that name is |
| IdeaRoute.SubmitIdeaKeepsPendingNewest | app/api/idea/route.ts:67-85 | accepting an idea keeps every pending idea the newest under its name, given a clock past the stored creation times |
| IdeaRoute.Post | app/api/idea/route.ts:6-89 | the handler's answer and new store are those of `SubmitIdea`, for the submission the lookup returns |
| SpinRoute.Record | app/api/spin/route.ts:117 | the drawn id is appended to the level's ledger and the other ledger is unchanged |
| SpinRoute.Available | app/api/spin/route.ts:83-85 | exactly the pool topics whose id is not in the ledger |
| SpinRoute.PickIndex | app/api/spin/route.ts:99 | `Math.floor(random * n)` is an index below `n`, the floor of `random * n` |
| SpinRoute.Drawn | app/api/spin/route.ts:99-100 | the drawn topic is in the pool and its id is not in the ledger |
| SpinRoute.EveryAvailableTopicCanBeDrawn | app/api/spin/route.ts:99-100 | each available topic is the one drawn by some value of `Math.random()` |
| SpinRoute.AssignEvolves | app/api/spin/route.ts:110-114 | assigning a topic with a timer that starts now and ends 14 days later keeps the record consistent and only evolves it |
| SpinRoute.Spin | app/api/spin/route.ts:28-129 | each error exactly under its guard, in the handler's order; 409 exactly when every pool id is in the ledger; success exactly when every guard passes and an unused topic remains; no change on error; success sets flow, topic and the 14-day timer, appends the drawn id, and leaves the submissions and the other ledger alone |
| SpinRoute.SpinKeepsWellFormed | app/api/spin/route.ts:110-120 | every answer keeps the aggregate well formed and only evolves it |
| SpinRoute.AppendKeepsLedgerSound | app/api/spin/route.ts:117 | appending an unlisted pool id keeps a ledger free of repeats and within its pool |
| SpinRoute.SpinKeepsLedgersSound | app/api/spin/route.ts:82-117 | every answer keeps both ledgers free of repeats and within their pools |
| SpinRoute.LedgerBounded | app/api/spin/route.ts:82-96 | a sound ledger is never longer than its pool has distinct ids |
| SpinRoute.FullLedgerCoversPool | app/api/spin/route.ts:88-96 | a sound ledger as long as its pool has distinct ids lists every pool id |
| SpinRoute.FullPoolIsExhausted | app/api/spin/route.ts:82-96 | after as many draws as the pool has distinct ids, every further draw for that level is refused with 409 |
| SpinRoute.NoTopicHandedOutTwice | app/api/spin/route.ts:82-117 | of two successful draws in a row for the same level, the second never hands out the first one's topic |
| SpinRoute.Post | app/api/spin/route.ts:23-129 | the handler's answer and new store are those of `Spin` |
| MeRoute.CeilDiv | app/api/me/route.ts:51 | `Math.ceil(a / b)` is the least `q` with `a <= q * b` |
| MeRoute.DaysRemainingSign | app/api/me/route.ts:46-52 | the day count is positive exactly while the deadline is ahead |
| MeRoute.DaysRemainingMonotone | app/api/me/route.ts:46-52 | the day count never goes up as the clock advances |
| MeRoute.View | app/api/me/route.ts:54-126 | topic held gives `topic_selected`, with days only when a deadline is set and the comment shown exactly when the latest idea is approved, as that idea's comment; otherwise the latest idea's status gives pending, rejected or approved-pending-finalization, and none gives selecting |
| MeRoute.Me | app/api/me/route.ts:11-126 | 400 and 404 exactly under their guards; the timer is started exactly when a topic is held without one; otherwise nothing changes; the page is the view of the updated record |
| MeRoute.FirstViewShowsFourteenDays | app/api/me/route.ts:29-52 | on the first view of an unseen topic the page shows 14 days remaining |
| MeRoute.MeSettles | app/api/me/route.ts:29-43 | viewing again, at any later time, changes nothing more |
| MeRoute.MeKeepsWellFormed | app/api/me/route.ts:29-43 | every answer keeps the aggregate well formed and only evolves it |
| MeRoute.Get | app/api/me/route.ts:6-126 | the handler's answer and new store are those of `Me`, for the submission the lookup returns |
| CompleteRoute.LinkOf | app/api/complete/route.ts:50 | the trimmed link, or nothing when the link is missing or blank |
| CompleteRoute.Complete | app/api/complete/route.ts:11-53 | each error exactly under its guard, including the server error for non-string input, with no change on error; success sets the completion time and link, keeps every other field, and stores only that record |
| CompleteRoute.CompleteKeepsWellFormed | app/api/complete/route.ts:45-53 | every answer keeps the aggregate well formed and only evolves it |
| CompleteRoute.CompleteOnce | app/api/complete/route.ts:37-43 | after a successful completion, every later attempt under the same name is refused as already completed |
| CompleteRoute.Post | app/api/complete/route.ts:6-59 | the handler's answer and new store are those of `Complete` |
| AdminAccess.AdminIffListed | app/api/admin/users/route.ts:7-22 | a non-blank name is an administrator exactly when the variable is set and some non-blank entry has the same key; an empty or missing list grants nothing |
| AdminAccess.ListedNamesAreAdmins | app/api/admin/submissions/route.ts:7-22 | every name written in the list, under any spelling with the same key, is an administrator |
| AdminUsersRoute.RowFor | app/api/admin/users/route.ts:49-62 | the row carries the user; days left exactly when a deadline is set, equal to the rounded-up days until it, and at least one exactly while the deadline is ahead |
| AdminUsersRoute.Rows | app/api/admin/users/route.ts:49-63 | one row per user, in the same order, each carrying its user and days left exactly when a deadline is set, as the rounded-up days until it |
| AdminUsersRoute.Get | app/api/admin/users/route.ts:24-75 | 400 and 403 exactly under their guards; otherwise the rows of all stored users and only those, as many as there are users, with a chosen time before none and the newest chosen time first, and `total` the row count |
| AdminSubmissionsRoute.Get | app/api/admin/submissions/route.ts:24-59 | 400 and 403 exactly under their guards; otherwise each stored submission passing the status filter (all when there is none) exactly once, newest first, and `total` the count |
| CheckEnv.ParseLine | scripts/check-env.js:19-31 | nothing is bound exactly for blank or `#` lines, lines without `=`, or lines starting with `=`; otherwise the key is the text before the first `=` and the value the rest, trimmed |
| CheckEnv.ParseRendered | scripts/check-env.js:19-31 | a line written as `key=value` parses back to the binding |
| CheckEnv.FirstNonEmpty | scripts/check-env.js:26 | a non-empty candidate preceded only by empty ones, that is the first non-empty one, and none exactly when all are empty |
| CheckEnv.ApplyLinesResolves | scripts/check-env.js:19-31 | after a file's lines, each variable holds the first non-empty value among its current value and the lines' values for it |
| CheckEnv.LoadFileResolves | scripts/check-env.js:15-33 | a missing file changes nothing; an existing one resolves as its lines do |
| CheckEnv.LoadEnvResolves | scripts/check-env.js:12-34 | each variable ends with the first non-empty value among the process environment, `.env.local` and `.env`, in that order |
| CheckEnv.ProcessEnvWins | scripts/check-env.js:25-28 | a variable already set to a non-empty value is never overridden |
| CheckEnv.LocalBeatsDotenv | scripts/check-env.js:13 | failing the process environment, `.env.local` wins over `.env` |
| CheckEnv.ProcessEnv.LoadEnvFiles | scripts/check-env.js:12-34 | the environment after the loops is `LoadEnv` of the one before |
| CheckEnv.MissingVars | scripts/check-env.js:55-63 | no message exactly when no required variable is missing or blank; a message for each one that is, and every message names one that is |
| CheckEnv.MissingVarsSnoc | scripts/check-env.js:55-63 | one more name adds its own message at the end exactly when that variable is missing or blank, and nothing otherwise |
| CheckEnv.MissingVarsAppend | scripts/check-env.js:55-63 | the messages follow the list order: those for `a + b` are those for `a` followed by those for `b` |
| CheckEnv.MissingFiles | scripts/check-env.js:76-86 | no message exactly when every required file exists; a message for each one that does not, and every message names one that does not |
| CheckEnv.MissingFilesSnoc | scripts/check-env.js:76-86 | one more path adds its own message at the end exactly when that file is missing, and nothing otherwise |
| CheckEnv.MissingFilesAppend | scripts/check-env.js:76-86 | the messages follow the list order: those for `a + b` are those for `a` followed by those for `b` |
| CheckEnv.Errors | scripts/check-env.js:53-97 | the error list is empty exactly when every variable is set, every file exists and the directory is writable |
| CheckEnv.CheckVariables | scripts/check-env.js:55-63 | the loop over the required variables collects `MissingVars` |
| CheckEnv.CheckFiles | scripts/check-env.js:76-86 | the loop over the required files collects `MissingFiles` |
| CheckEnv.Check | scripts/check-env.js:53-119 | the errors are `Errors`, the warning appears outside production; the exit code is 1 exactly when an error was recorded |
| CheckEnv.Run | scripts/check-env.js:36-119 | the environment is loaded from the files, and then checked |
| TopicWheel.FirstParagraph | app/components/TopicWheel.tsx:101 | the prefix before the first blank line, or the whole text when there is none |
| TopicWheel.TopicTitle | app/components/TopicWheel.tsx:100-103 | the first paragraph, or the whole topic when that is empty; empty only for an empty topic |
| TopicWheel.FirstParagraphOfJoin | app/components/TopicWheel.tsx:101 | the first paragraph of `a`, a blank line and `b` is `a`, when `a` holds no blank line and does not end in a line feed |
| TopicWheel.TitleOfDrawnTopic | app/components/TopicWheel.tsx:100-103 | the wheel shows the title of a topic the wheel composed, for a title without a blank line or trailing line feed |
| TopicWheel.Layout | app/components/TopicWheel.tsx:112-118 | with a final topic, six decoy cycles, its title, then one more cycle; without, ten cycles |
| TopicWheel.CycleItem | app/components/TopicWheel.tsx:114 | item `j` of every decoy cycle is decoy `j` |
| TopicWheel.TailItem | app/components/TopicWheel.tsx:116 | after the final topic the decoys follow once more, in order |
| TopicWheel.WheelStopsOnFinalTopic | app/components/TopicWheel.tsx:55-62 | at rest the offset lies mid-way through item 90, which holds the drawn topic's title; the lists are 106 and 150 items long |
| Workflow.NoSpinAfterIdea | app/api/spin/route.ts:57-65 | after an accepted idea, spinning under the same name is refused |
| Workflow.NoIdeaAfterSpin | app/api/idea/route.ts:36-45 | after a successful spin, an idea under the same name is refused |

Some functions model the source directly but carry no contract of their own;
the rows of the lemmas about them state what they do:

- `Storage.Normalize` (`normalizeFio`, lib/storage.ts): the `Storage.Normalize…` lemmas;
- `Text.Trim` and `Text.ToLowerCase`: `Text.TrimSpec`, `Text.TrimUnique`,
  `Text.TrimIdempotent`, `Text.TrimPadding`, `Text.TrimEmptyIffBlank`,
  `Text.ToLowerCaseIdempotent` and `Text.TrimToLowerCaseCommute`;
- `AdminAccess.IsAdmin` and its helper `AdminAccess.AdminKeys` (`isAdmin`):
  `AdminAccess.AdminIffListed` and `AdminAccess.ListedNamesAreAdmins`;
- `SpinRoute.ComposeTopic` (the stored topic text): `TopicWheel.TitleOfDrawnTopic`;
- `MeRoute.DaysRemaining` (`Math.ceil` of the days left): `MeRoute.CeilDiv`,
  `MeRoute.DaysRemainingSign` and `MeRoute.DaysRemainingMonotone`;
- `CheckEnv.LoadEnv` (the two `loadEnvFile` calls): `CheckEnv.LoadEnvResolves`,
  `CheckEnv.ProcessEnvWins` and `CheckEnv.LocalBeatsDotenv`.

## Left out

- File I/O in the store is not modelled: creating the directory and file, JSON serialisation, and the temporary-file-plus-rename write. The aggregate is in memory; `Storage.ReadAfterWrite` states only the round trip of the data.
- Concurrency is not modelled. Each request reads and writes the whole file, and two requests can interleave and lose an update. The idea route's two writes (new submission, then the user's flow) are taken as one step.
- The topic pools are parameters. Reading the pool files, and the server error when one is missing, are not part of this model.
- `SpinRoute.Spin`: a stored ledger object that lacks one of its two lists makes the source throw when it appends. The model's ledger always has both lists.
- `SpinRoute.PickIndex`: `Math.random()` is an exact real in [0, 1). Floating-point rounding of `random * n` is not modelled.
- The fresh submission id from `randomUUID` is a parameter that the callers promise is not yet in use.
- Time is integer milliseconds. Building and parsing ISO strings is not modelled, and a handler's several clock readings are one reading `now`.
- `Text.ToLowerCase` maps only the Basic Latin capitals A-Z and the Cyrillic capitals U+0400-U+042F (Ё, Ђ, ..., А-Я). Other Cyrillic capitals that JavaScript lowercases (Ґ U+0490, Қ, Ә, Ө, Ү and the rest of the Cyrillic Supplement and Extended ranges), other scripts, and mappings that change a string's length are not modelled. So `"Ґалина"` and `"ґалина"` get different keys in the model and the same key in the source.
- HTTP plumbing is reduced to an error datatype with its status codes. Response messages, the extra fields of each response, and the server error for a body that is not JSON are not modelled. The one exception is the completion route's thrown `trim`.
- `MeRoute.View`: the page records the whole latest submission. The route returns only some of its fields in each state, and the rejected state's `canResubmit: true` is implied by the constructor.
- `Storage.Store.AllUsers` and `Storage.Store.SubmissionValues`: they state membership and count, not the insertion order of `Object.values`.
- `AdminUsersRoute.Get`: it states membership both ways and the count. That makes the listing a permutation of the stored users whenever the records under different keys differ, which always holds in a well-formed store.
- `AdminUsersRoute.Get`: it states only the order the comparator decides: records with a chosen time first, newest first. The comparator is not consistent when neither record has a chosen time, so the relative order of such records is left to the sort.
- `Storage.Store.LatestSubmissionFor`, `Storage.Store.SubmissionValues`, `Storage.Store.AllSubmissions`, `IdeaRoute.Post`, `MeRoute.Get` and `AdminSubmissionsRoute.Get` require every submission to be stored under its own id. Every modelled route keeps that true. The file format does not enforce it.
- `IdeaRoute.Post` and `MeRoute.Get`: when two submissions share the latest creation time, the one returned depends on the engine's sort. The methods return the lookup's answer as a ghost result, stated only to satisfy `Storage.IsLatest`.
- The approve and reject routes are not part of this model. Approved and rejected submissions enter only as stored data. `Storage.Store.UpdateSubmission` is their storage helper.
- The user interface, the wheel animation (frame loop, easing and timers), the layout, the health and diagnostics routes, `scripts/init-data.js` and the deployment configuration are not part of this model.
- `scripts/check-env.js`: file existence and the directory's writability are inputs. Console output, file sizes and the `PORT` report are not modelled.
- `Storage.Store.GetUser`, and every route that looks a participant up: the source reads `state.users[key]` on an object parsed from JSON, so a key naming an inherited property of `Object.prototype` finds that property instead of nothing. The key `constructor` finds a truthy function, so the login route answers as for a returning user and stores nothing. The key `__proto__` finds `Object.prototype` itself, and the spin route then writes the flow and topic onto it and appends to the ledger. The model's users map has no inherited entries, so it treats these keys like any other unknown name (a new user at login, `UserNotFound` elsewhere).
- The obsolete `gigachatAdvice` field of a participant is not modelled. No modelled route reads or writes it.
