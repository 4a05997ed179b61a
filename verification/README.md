# Model of the LiteFS cluster guards

This project models the decision logic of a library that guards a replicated SQLite cluster, and
proves what that logic keeps.

- **Write forwarding.** A replica forwards writes to the primary. A circuit breaker shared by all
  requests decides whether a request may try; a retry loop with capped exponential backoff records one
  outcome per attempt. `CircuitBreakers` models the breaker and what a log of recorded outcomes says
  about it, `Retry` the policy, `Forwarding` the middleware as a class with its loop, `ForwardingLaws`
  single requests and sequential runs, `Interleaving` any number of requests whose lock sections, clock
  readings and answers interleave freely. `RequestHistory` says what one of those requests does, `CoolDown`
  exactly when the breaker's waiting time survives the interleaving.
- **Write classification.** `SqlDetector` writes the three regular expressions out as scanners and keeps
  the parenthesis loop; `SqlWords` says in letters what it answers for every text, `SqlComments` and
  `SqlLaws` what stripping and classification do to whole statements. `Cursor` puts the cursor's two checks on top: which statements reach SQLite.
- **Failover and quorum.** `Failover` is the coordinator's state machine with its event log, `Quorum` the
  membership, role and quorum logic of the Raft election, `SplitBrain` the poll of the members and its
  report.
- **Primary cache, versions, excluded paths.** `PrimaryCache`, `BinaryVersions`, `PathExclusion`.

Conventions. Time and delays are real numbers. Text is ASCII. The clock's readings and the primary's
answers are streams given in advance, so every statement is about all of them. The environment of a cursor
call, a coordinator call or a cache call is a parameter of that call and may change from call to call.
Specification functions such as `Forwarding.Loop` or `Failover.Step` follow the source step by step; the
class methods are proved equal to them, and the lemmas say what they mean.

Where code and documentation disagree, the model follows the code:

- `tests/features/django/forwarding_resilience.feature:69-74` expects 3 attempts and status 502 for a retry
  count of 3 when every attempt fails to connect; the loop makes 4 and answers 503
  (`ThreeRetriesFourAttempts`). For every policy it makes one attempt more than the retry count
  (`UnreachablePrimary`), and 502 is seen exactly when the last attempt brought it (`BadGatewayExact`).
- The same file (line 89) counts failed requests towards the threshold; the code counts failed attempts
  (`AloneFromClosed`).
- `tests/features/core/failover_transitions.feature:40-46` keeps an unhealthy replica from promotion;
  `coordinate_transition` asks neither health nor quorum (`PollIgnoresGuards`, `UnhealthyNodeIsPromoted`).
- The breaker's documentation promises no request until the timeout has passed. With concurrent requests a
  late writer can move the opening time back (`CoolDownBroken`). `CoolDown.CoolDownExact` gives the exact
  condition on the requests in flight, for every state any interleaving reaches.
- The path matcher's documentation describes `/static/**` as matching below `/static/`; the branch is a plain
  prefix test (`DoubleStarIsPrefix`), so it also takes `/staticfiles` (`StaticFilesExcluded`), and
  `DoubleStarCrossesSegments` says on which paths the two readings agree.
- The same documentation gives the star in `/static/*` one path segment; it takes any text, slashes included
  (`SingleStar`, `StaticTreeExcluded`). `SingleStarCrossesSegments` says when the two readings agree.

## Model

| member | source | states |
|---|---|---|
| CircuitBreakers.Create | packages/litefs/src/litefs/domain/circuit_breaker.py:54-67 | Construction succeeds exactly for a positive threshold and timeout, the threshold being asked first, and gives a coherent CLOSED breaker with the arguments and nothing counted. |
| CircuitBreakers.LogDeterminesBreaker | packages/litefs/src/litefs/domain/circuit_breaker.py:69-128 | For every log of outcomes and due probes the breaker is fixed by the log alone: HALF_OPEN right after a probe, otherwise OPEN exactly when a failure since the last probe stamped it, with that failure's time and the trailing runs as counters. |
| CircuitBreakers.NeverStamped | packages/litefs/src/litefs/domain/circuit_breaker.py:78-105 | Nothing stamped the breaker exactly when no run of threshold failures occurred since the probe and the probe did not fail. |
| CircuitBreakers.StateFromLog | packages/litefs/src/litefs/domain/circuit_breaker.py:26-30 | The documented state machine as an if-and-only-if on the log: CLOSED means the last probe succeeded (or none happened) and no threshold-long run of failures since. |
| CircuitBreakers.ProbeKeepsStamp | packages/litefs/src/litefs/domain/circuit_breaker.py:184-193 | Going HALF_OPEN keeps the opening time and both counters of the failures before it. |
| CircuitBreakers.AdmissionFromLog | packages/litefs/src/litefs/domain/circuit_breaker.py:130-182 | For every log a request is let in exactly when the breaker is disabled, the last event is a probe, nothing has stamped the breaker since the last probe, or the timeout has strictly passed since the last stamp. |
| CircuitBreakers.OpensExactlyAtThreshold | packages/litefs/src/litefs/domain/circuit_breaker.py:78-105 | While CLOSED the failure count is the length of the log's trailing run of failures, and the next failure opens the breaker exactly when that run reaches the threshold. |
| CircuitBreakers.CoolDownHolds | packages/litefs/src/litefs/domain/circuit_breaker.py:166-182 | If no later failure carries an earlier time, more than the timeout passes between an opening and the next probe. |
| CircuitBreakers.CoolDownExact | packages/litefs/src/litefs/domain/circuit_breaker.py:80-105 | For every log that opens the breaker with a failure at t and then holds no probe: every next probe comes more than the timeout after t exactly when the last failure that stamped the breaker is not older than t. |
| Retry.CreatePolicy | packages/litefs/src/litefs/domain/retry.py:43-62 | A policy is accepted exactly when retries are non-negative and both delays positive, asked in this order, and holds the three arguments. |
| Retry.UncappedIsPower | packages/litefs/src/litefs/domain/retry.py:76 | Doubling the base per attempt is base times a power of two. |
| Retry.TotalDelay | packages/litefs/src/litefs/domain/retry.py:64-77 | The total sleep of k retries is base * (2^c - 1) plus (k - c) * cap, c being the first attempt whose delay reaches the cap. |
| Retry.Crossover | packages/litefs/src/litefs/domain/retry.py:76-77 | That c: all earlier uncapped delays are below the cap, its own is not. |
| Retry.DelaysMonotone | packages/litefs/src/litefs/domain/retry.py:64-77 | Delays are positive, never shrink and never exceed the cap. |
| Forwarding.Retryable | packages/litefs/src/litefs/domain/retry.py:90-117 | The answers worth another attempt are the statuses 502, 503 and 504, a connection or timeout error, and an OSError with errno 104, 110, 111, 113 or 115. |
| Forwarding.CountsAsFailure | packages/litefs-django/src/litefs_django/middleware.py:571-598 | A failure is recorded for those three statuses and for every error of the OSError family. |
| Forwarding.Attempts | packages/litefs-django/src/litefs_django/middleware.py:559-598 | The number of calls: all answers before the last are such answers, at most max_retries + 1 calls are made, and the last answer is no such one unless the retries are used up. |
| Forwarding.TurnExact | packages/litefs-django/src/litefs_django/middleware.py:559-598 | One turn of the loop, answer by answer: 502 to 504 and the passing errors record a failure, sleep and go on while a retry is left; any other status is returned with a success recorded; other OSErrors fail with 503 and a failure recorded; any other exception escapes with nothing recorded. |
| Forwarding.LoopExact | packages/litefs-django/src/litefs_django/middleware.py:556-598 | For every stream of answers the loop makes exactly that many calls, records one outcome per attempt (none for an escaping exception), sleeps once between attempts and answers from the last one. |
| Forwarding.AllAttemptsUsed | packages/litefs/src/litefs/domain/retry.py:79-88 | The loop makes one attempt more than the retries left exactly when all answers before the last possible one are retryable. |
| Forwarding.UnreachablePrimary | packages/litefs-django/src/litefs_django/middleware.py:585-598 | When no attempt ever connects, a retry count of r means r + 1 attempts, all r delays slept, and status 503. |
| Forwarding.ThreeRetriesFourAttempts | packages/litefs-django/src/litefs_django/middleware.py:556-598 | The documented scenario at its own input: four attempts instead of three, 503 instead of 502. |
| Forwarding.BadGatewayExact | packages/litefs-django/src/litefs_django/middleware.py:571-598 | The client sees 502 exactly when the last attempt brought that status. |
| Forwarding.WriteForwardingMiddleware.MaybeTransitionToHalfOpen | packages/litefs-django/src/litefs_django/middleware.py:499-512 | The half-open step changes the breaker exactly when it is OPEN and cooled down. |
| Forwarding.WriteForwardingMiddleware.RecordFailure | packages/litefs-django/src/litefs_django/middleware.py:600-606 | Consumes one clock reading and records the failure with it; does nothing without a breaker. |
| Forwarding.WriteForwardingMiddleware.RecordSuccess | packages/litefs-django/src/litefs_django/middleware.py:608-613 | Records the success and touches nothing else. |
| Forwarding.WriteForwardingMiddleware.ForwardWithRetry | packages/litefs-django/src/litefs_django/middleware.py:553-598 | The imperative loop computes the reply and the whole new state of `Loop`. |
| Forwarding.WriteForwardingMiddleware.ForwardRequest | packages/litefs-django/src/litefs_django/middleware.py:444-475 | The whole request computes the reply and the whole new state of `Request`; without a port it passes through untouched. |
| ForwardingLaws.FailuresFromClosed | packages/litefs/src/litefs/domain/circuit_breaker.py:78-105 | m failures from CLOSED: CLOSED while the count stays below the threshold, then OPEN with the last failure's time. |
| ForwardingLaws.FailuresFromHalfOpen | packages/litefs/src/litefs/domain/circuit_breaker.py:80-98 | m failures from HALF_OPEN: OPEN with the first failure's time below the threshold, the last one's from it on. |
| ForwardingLaws.RequestExact | packages/litefs-django/src/litefs_django/middleware.py:448-475 | An admitted request is the half-open step followed by the exact loop. |
| ForwardingLaws.RequestRefused | packages/litefs-django/src/litefs_django/middleware.py:444-450 | An enabled OPEN breaker within its timeout answers 503 with the timeout's whole seconds, at the cost of one clock reading. |
| ForwardingLaws.RequestUnresolved | packages/litefs-django/src/litefs_django/middleware.py:452-464 | Without a known primary an admitted request answers 503 and makes no call, but a due half-open step has taken effect. |
| ForwardingLaws.RequestUnguarded | packages/litefs-django/src/litefs_django/middleware.py:485-606 | Without a breaker nothing is refused or recorded; only the admission reads the clock. |
| ForwardingLaws.AloneFromClosed | packages/litefs-django/src/litefs_django/middleware.py:557-613 | A request running alone from CLOSED with count f and m failed attempts ends CLOSED exactly when f + m is below the threshold, otherwise OPEN with its last failure's time. |
| ForwardingLaws.AloneAsProbe | packages/litefs-django/src/litefs_django/middleware.py:499-613 | A request running alone as probe ends CLOSED exactly when its first attempt succeeds, HALF_OPEN exactly when that attempt escapes, otherwise OPEN even if a retry succeeds, with the first or last failure's time. |
| ForwardingLaws.RunInOrder | packages/litefs-django/src/litefs_django/middleware.py:448-613 | Over every sequence of requests the breaker is the replay of their events, every probe was due and recorded times never run backwards. |
| ForwardingLaws.SequentialCoolDown | packages/litefs/src/litefs/domain/circuit_breaker.py:130-182 | In every log whose times never run backwards the full timeout separates each opening from the next probe. |
| ForwardingLaws.RunCoolDown | packages/litefs-django/src/litefs_django/middleware.py:448-613 | Hence in every run of requests one after another, wherever an opening and the next probe occur in it. |
| ForwardingLaws.StampNeverMovesBack | packages/litefs/src/litefs/domain/circuit_breaker.py:80-98 | Nor does the opening time decrease in such a log while the breaker stays open. |
| ForwardingLaws.RunStampNeverMovesBack | packages/litefs-django/src/litefs_django/middleware.py:600-606 | So no event of a run of requests one after another moves the opening time of an open breaker back. |
| Interleaving.StepKeepsInv | packages/litefs-django/src/litefs_django/middleware.py:485-512 | Each atomic step of each request keeps the invariant. |
| Interleaving.RunKeepsInv | packages/litefs-django/src/litefs_django/middleware.py:485-613 | In every interleaving: the breaker is the replay of the events in lock order; CLOSED means no opening time and a count below the threshold, otherwise an opening time not after the clock; the two counts are never both positive; recorded outcomes equal the sum of what the requests recorded, one per attempt unless it escaped. |
| Interleaving.RunStateFromLog | packages/litefs/src/litefs/domain/circuit_breaker.py:69-128 | In every interleaving the state and counters are the ones the log in lock order defines without counters. |
| Interleaving.StepRecords | packages/litefs-django/src/litefs_django/middleware.py:499-613 | Every step that changes the breaker adds the one event it applied, with the time that decided it: the reading a request was admitted on, or the one taken before the lock for its failure. |
| Interleaving.RunEdges | packages/litefs/src/litefs/domain/circuit_breaker.py:80-193 | The only state edges are the four documented ones, and an enabled OPEN breaker admits or goes HALF_OPEN only strictly after its current opening time plus the timeout. |
| Interleaving.CoolDownBroken | packages/litefs-django/src/litefs_django/middleware.py:604-606 | A concrete schedule of three requests in which a probe happens 5.5 seconds after an opening although the timeout is 10. |
| Interleaving.LoopIsSchedule | packages/litefs-django/src/litefs_django/middleware.py:556-598 | The sequential loop is one schedule of the interleaved system. |
| Interleaving.RequestIsSchedule | packages/litefs-django/src/litefs_django/middleware.py:448-475 | The sequential request refines the concurrent one: some schedule ends with the same breaker and reply, other requests standing still. |
| RequestHistory.HistoryMatches | packages/litefs-django/src/litefs_django/middleware.py:559-598 | In every interleaving each request's phase is the one its own answers put the retry loop in. |
| RequestHistory.FinishedRequestExact | packages/litefs-django/src/litefs_django/middleware.py:556-598 | In every interleaving a finished request called the primary exactly as often as the loop does on the same answers when it runs alone, replied to the last of them, and recorded one outcome per attempt unless the last one escaped. |
| CoolDown.StepKeepsSafe | packages/litefs-django/src/litefs_django/middleware.py:485-512 | No step of any request that leaves the breaker OPEN brings a late failure into a position to hurry a probe. |
| CoolDown.SafeWaits | packages/litefs/src/litefs/domain/circuit_breaker.py:130-182 | From a safe state every probe in every continuation waits out the timeout. |
| CoolDown.HurryBreaks | packages/litefs-django/src/litefs_django/middleware.py:600-606 | Otherwise some schedule has the other requests fail until the late failure stamps the breaker, and probes before the timeout has passed. |
| CoolDown.CoolDownExact | packages/litefs-django/src/litefs_django/middleware.py:499-512 | In every state that any interleaving reaches with an enabled OPEN breaker, all probes to come wait until the timeout has passed since the opening time in force, exactly when no request in flight holds an earlier unrecorded clock reading that the failures left can make the opening time while a probe is still possible in time. |
| CoolDown.OpeningFillsCount | packages/litefs/src/litefs/domain/circuit_breaker.py:93-105 | An opening from CLOSED fills the count and is stamped with the reading of the request that recorded the failure. |
| CoolDown.CoolDownAtFullCount | packages/litefs-django/src/litefs_django/middleware.py:600-606 | With a full count and before the timeout has passed the condition is only that no request in flight has read the clock before the opening for a failure it has not recorded. |
| SqlDetector.CloseIndex | packages/litefs/src/litefs/usecases/sql_detector.py:8 | The non-greedy end of a block comment: the first closing mark. |
| SqlDetector.FirstClose | packages/litefs/src/litefs/usecases/sql_detector.py:112-120 | The least closing parenthesis at which the running balance returns to zero. |
| SqlDetector.MainQueryStart | packages/litefs/src/litefs/usecases/sql_detector.py:109-126 | The index after that parenthesis, or 0 exactly when there is none. |
| SqlDetector.FindMainQuery | packages/litefs/src/litefs/usecases/sql_detector.py:109-120 | The scan loop with its running depth finds that index. |
| SqlDetector.DetectWrite | packages/litefs/src/litefs/usecases/sql_detector.py:52-130 | The branching method computes the classification predicate. |
| SqlWords.ClassifierExact | packages/litefs/src/litefs/usecases/sql_detector.py:72-130 | For every text, in letters of either case: a write exactly when, comments and surrounding blanks apart, it starts with one of the fifteen keywords, or with PRAGMA and shows an equals sign, or with WITH and shows one of the three words from the main query on. |
| SqlWords.WriteKeywordExact | packages/litefs/src/litefs/usecases/sql_detector.py:16-18 | The search finds INSERT, UPDATE or DELETE as a whole word in any case, unless FROM and one blank stand right before it. |
| Text.WordCharacters | packages/litefs/src/litefs/usecases/sql_detector.py:16-18 | The characters a word boundary is drawn around: the letters, the digits and the underscore. |
| Text.Spaces | packages/litefs/src/litefs/usecases/sql_detector.py:16-18 | The blank characters of ASCII text: blank, tab, the line breaks, and the four separators from U+001C on. |
| Text.UpperCase | packages/litefs/src/litefs/usecases/sql_detector.py:67 | Upper-casing changes the lower-case letters alone, each into the letter at its place in the alphabet. |
| Text.StartsWithExact | packages/litefs/src/litefs/usecases/sql_detector.py:92 | A prefix test holds exactly when something follows the prefix to make up the text. |
| SqlWords.PragmaExact | packages/litefs/src/litefs/usecases/sql_detector.py:95-98 | A PRAGMA is a write exactly when an equals sign is left once the comments are gone. |
| SqlWords.OtherStatementsRead | packages/litefs/src/litefs/usecases/sql_detector.py:90-130 | A statement starting with none of the seventeen words is a read. |
| SqlComments.BlocksKeepPlain | packages/litefs/src/litefs/usecases/sql_detector.py:46-47 | The first pass leaves text without a block opener alone, whatever follows. |
| SqlComments.BlockDisappears | packages/litefs/src/litefs/usecases/sql_detector.py:46-47 | The first pass removes a closed block comment and nothing of what follows. |
| SqlComments.UnclosedStays | packages/litefs/src/litefs/usecases/sql_detector.py:8 | A block comment that is never closed stays in the statement. |
| SqlComments.LineDisappears | packages/litefs/src/litefs/usecases/sql_detector.py:48-49 | The second pass turns a line comment into its newline, or into nothing at the end of input. |
| SqlComments.StripExact | packages/litefs/src/litefs/usecases/sql_detector.py:34-50 | For every list of plain runs and comments, stripping the rendered text gives exactly the plain runs and the line comments' newlines. |
| SqlComments.LineBodyMatters | packages/litefs/src/litefs/usecases/sql_detector.py:46-49 | A concrete input showing that a block opener inside a line comment does change the result. |
| SqlLaws.CloseOfBody | packages/litefs/src/litefs/usecases/sql_detector.py:112-120 | For a paren-free head and any balanced body the scan stops exactly at the end of the body. |
| SqlLaws.CteExact | packages/litefs/src/litefs/usecases/sql_detector.py:105-128 | A flush, comment-free common table expression is a write exactly when its main query shows a write keyword, whatever its body holds. |
| SqlLaws.CteOpensWithWrite | packages/litefs/src/litefs/usecases/sql_detector.py:16-18 | Every main query opening with blanks and a whole-word INSERT, UPDATE or DELETE in any case is classified as a write. |
| SqlLaws.CteReads | packages/litefs/src/litefs/usecases/sql_detector.py:105-128 | A main query without any of the three whole words never is. |
| SqlLaws.LeadingKeyword | packages/litefs/src/litefs/usecases/sql_detector.py:64-93 | Any comments and blanks in front of a statement that starts with one of the fifteen keywords, letter by letter in any case, leave it a write, whatever follows. |
| SqlLaws.CteReplaceIsMissed | packages/litefs/src/litefs/usecases/sql_detector.py:72-79 | REPLACE, a write keyword in front of a statement, is not seen behind a common table expression. |
| SqlLaws.IndentedCte | packages/litefs/src/litefs/usecases/sql_detector.py:112-128 | For every indentation the exact text searched: it starts at the index that would be right without indentation. |
| SqlLaws.BlockInFront | packages/litefs/src/litefs/usecases/sql_detector.py:46-47 | A closed block comment in front of any text changes neither the stripped text nor the classification. |
| SqlLaws.SpaceInFront | packages/litefs/src/litefs/usecases/sql_detector.py:64-128 | Blanks in front of a statement whose stripped text starts flush never turn a write into a read. |
| SqlLaws.LineInFront | packages/litefs/src/litefs/usecases/sql_detector.py:64-128 | Nor does a line comment. |
| SqlLaws.IndentedExact | packages/litefs/src/litefs/usecases/sql_detector.py:112-128 | A comment-free statement indented by n + 1 blanks is a write exactly when the last n characters of its body and what follows show a write keyword; the same statement flush left exactly when its main query does. |
| SqlLaws.IndentMakesWrite | packages/litefs/src/litefs/usecases/sql_detector.py:112-128 | Seven blanks turn every comment-free read whose body ends in a keyword into a write. |
| SqlLaws.MoreIndentHides | packages/litefs/src/litefs/usecases/sql_detector.py:112-128 | Twelve blanks leave it a read when FROM and a blank stand before that keyword, so the flush start is needed above. |
| SqlLaws.IndentedUpdateTable | packages/litefs/src/litefs/usecases/sql_detector.py:112-128 | One literal statement that is a read flush left, a write behind seven blanks and a read behind twelve. |
| Cursor.LiteFSCursor.CheckSplitBrainBeforeWrite | packages/litefs-django/src/litefs_django/db/backends/litefs/base.py:57-88 | Refuses a write exactly when a detector is set and it raises or counts more than one leader. |
| Cursor.LiteFSCursor.CheckPrimaryBeforeWrite | packages/litefs-django/src/litefs_django/db/backends/litefs/base.py:90-117 | Refuses a write exactly when the primary detector raises or says replica. |
| Cursor.LiteFSCursor.RunStatement | packages/litefs-django/src/litefs_django/db/backends/litefs/base.py:119-157 | `execute` and `executemany`: split-brain check, then primary check, then SQLite; nothing reaches SQLite otherwise. |
| Cursor.LiteFSCursor.RunScript | packages/litefs-django/src/litefs_django/db/backends/litefs/base.py:159-204 | A script needs both checks whatever it contains. |
| Cursor.JudgeExact | packages/litefs-django/src/litefs_django/db/backends/litefs/base.py:57-204 | Reads and everything in development mode run; otherwise a raising split-brain detector or two leaders decide first, then a raising primary detector or a replica. |
| Cursor.OnlyGuardedCallsRun | packages/litefs-django/src/litefs_django/db/backends/litefs/base.py:57-204 | Over every sequence of calls and changing answers in production, exactly those calls reach SQLite that are statements classified as reads or passed, in that call, at most one leader (if configured) and the primary check. |
| Cursor.ExecutedInOrder | packages/litefs-django/src/litefs_django/db/backends/litefs/base.py:136-138 | They reach it in the order of the calls, and each as often as it is called. |
| Cursor.DevModeRunsAll | packages/litefs-django/src/litefs_django/db/backends/litefs/base.py:69-71 | In development mode all of them do. |
| Cursor.NoWriteOnReplica | packages/litefs-django/src/litefs_django/db/backends/litefs/base.py:90-204 | On a replica no script and no statement classified as a write ever reaches SQLite. |
| Cursor.NoCteWriteOnReplica | packages/litefs-django/src/litefs_django/db/backends/litefs/base.py:119-137 | Nor does a flush common table expression whose main query opens with a write keyword, with or without a block comment in front. |
| Failover.FailoverCoordinator.CoordinateTransition | packages/litefs/src/litefs/usecases/failover_coordinator.py:104-133 | The poll as a step of the abstract machine, event included. |
| Failover.FailoverCoordinator.PerformGracefulHandoff | packages/litefs/src/litefs/usecases/failover_coordinator.py:224-241 | The handoff as a step, demotion request included. |
| Failover.FailoverCoordinator.DemoteForHealth | packages/litefs/src/litefs/usecases/failover_coordinator.py:275-285 | The health demotion as a step. |
| Failover.FailoverCoordinator.DemoteForQuorumLoss | packages/litefs/src/litefs/usecases/failover_coordinator.py:287-297 | The quorum-loss demotion as a step. |
| Failover.EmitsExactlyOnChange | packages/litefs/src/litefs/usecases/failover_coordinator.py:120-133 | With an emitter a call emits one event, of the right direction, exactly when it changes the state. |
| Failover.PollEvents | packages/litefs/src/litefs/usecases/failover_coordinator.py:120-133 | After a poll the state is the port's answer, with the promotion or demotion event of the change. |
| Failover.DemotionEvents | packages/litefs/src/litefs/usecases/failover_coordinator.py:238-297 | Each way of stepping down leaves its own event, asks the port to let go and keeps the health mark; a replica does nothing. |
| Failover.LastMarkStands | packages/litefs/src/litefs/usecases/failover_coordinator.py:243-265 | Marking changes the health alone, and the last mark stands over every run without another. |
| Failover.EmitterOnlyEmits | packages/litefs/src/litefs/usecases/failover_coordinator.py:299-312 | Over every run a coordinator without an emitter goes through the same states and emits nothing. |
| Failover.StartsInStep | packages/litefs/src/litefs/usecases/failover_coordinator.py:78-83 | A new coordinator takes the port's answer, is healthy, has emitted nothing, and its first poll does nothing. |
| Failover.EventsTellState | packages/litefs/src/litefs/usecases/failover_coordinator.py:104-297 | Over every run promotions and demotions alternate and PRIMARY is initial state plus promotions minus demotions. |
| Failover.DemotionHolds | packages/litefs/src/litefs/usecases/failover_coordinator.py:238-241 | With a port that honours demotion, nothing happens to a demoted node until it is elected again. |
| Failover.DemotionSurvivesPoll | packages/py-leader/src/py_leader/election.py:176-183 | A demotion survives the next poll exactly when the port honours it or no longer elects the node. |
| Failover.PollIgnoresGuards | packages/litefs/src/litefs/usecases/failover_coordinator.py:104-189 | After a poll the state is the port's answer; the documented health and quorum rule holds exactly when the node is not elected or the guard would allow it. |
| Failover.GuardsExact | packages/litefs/src/litefs/usecases/failover_coordinator.py:135-222 | Each condition of the three guards by itself: health, quorum if the port tests it, election, current state. |
| Failover.UnhealthyNodeIsPromoted | packages/litefs/src/litefs/usecases/failover_coordinator.py:120-127 | A concrete unhealthy node without quorum that a poll promotes. |
| Failover.NoTwoMaintainLeadership | packages/litefs/src/litefs/usecases/failover_coordinator.py:135-222 | For every split of the cluster into groups, two nodes of different groups never both pass `should_maintain_leadership`, provided neither shows a member of another group as connected, whatever else their statuses hold. |
| Quorum.QuorumFormulasAgree | packages/litefs/src/litefs/domain/raft.py:75-84 | The election's and the settings' formula agree and give the least strict majority. |
| Quorum.HostExact | packages/litefs/src/litefs/adapters/split_brain_detector_adapter.py:100-109 | The host of an address is all there is before its first colon. |
| Quorum.Configure | packages/py-leader/src/py_leader/election.py:66-87 | A configured election has distinct members, knows its own address and has exactly the others as partners. |
| Quorum.ConfigureExact | packages/py-leader/src/py_leader/election.py:89-158 | A configuration is accepted exactly when the node has a name, there are at least two addresses, all different and well-formed, one of them begins with the name and a colon, and the heartbeat is positive and shorter than the election timeout. |
| Quorum.FirstObjection | packages/py-leader/src/py_leader/election.py:100-135 | Which objection is raised, each as an if-and-only-if: they are tried in the order of the code. |
| Quorum.FirstAddress | packages/py-leader/src/py_leader/election.py:151-154 | The first member with the node's host is its address. |
| Quorum.PartnersInOrder | packages/py-leader/src/py_leader/election.py:78 | The partners are the other members in their order. |
| Quorum.DistinctBySize | packages/py-leader/src/py_leader/election.py:113-116 | Comparing sizes detects duplicates exactly. |
| Quorum.SelfAddressExact | packages/py-leader/src/py_leader/election.py:137-158 | Every node finds its own address exactly when the hosts differ. |
| Quorum.LeaderElectionNode.HandleStateChange | packages/py-leader/src/py_leader/_raft_node.py:73-86 | Flag and callback change exactly when the leader role is entered or left. |
| Quorum.LeaderFlagFollowsRole | packages/py-leader/src/py_leader/_raft_node.py:73-86 | Over every chain of role changes the flag is set exactly in role 2, and the callback hears gain and loss in turn. |
| Quorum.LeaderElectionNode.GetRespondingNodesCount | packages/py-leader/src/py_leader/_raft_node.py:88-105 | The loop counts the node itself and the entries whose key starts with `partner_node_status_` and whose value is 2. |
| Quorum.IsQuorumReached | packages/py-leader/src/py_leader/election.py:224-234 | Quorum is reached exactly when that count is at least the quorum size. |
| Quorum.RespondingIsGroup | packages/py-leader/src/py_leader/_raft_node.py:98-105 | The count never exceeds the node's own group if only its members are shown with value 2, and equals it if all of them are, whatever values and keys the rest of the status holds. |
| Quorum.QuorumsIntersect | packages/py-leader/src/py_leader/election.py:74 | Any two quorums of one cluster share a member. |
| Quorum.OneGroupHasQuorum | packages/py-leader/src/py_leader/election.py:224-234 | Nodes of two different groups that show no member of another group with value 2 never both reach quorum. |
| Quorum.IsolatedHasNoQuorum | packages/py-leader/src/py_leader/election.py:224-234 | A node none of whose partners is shown with value 2 reaches quorum in no cluster. |
| SplitBrain.GetClusterState | packages/litefs/src/litefs/adapters/split_brain_detector_adapter.py:83-98 | The polling loop gives one state per member in order, or the first error. |
| SplitBrain.ClusterStateExact | packages/litefs/src/litefs/adapters/split_brain_detector_adapter.py:83-141 | One entry per member, in order, with its host and whether it leads: this node by its own state, any other exactly when it answers 200 with `is_leader` true. The poll fails exactly when there is no member, or some host is blank or answers 200 with JSON that is no object, the first such member deciding. |
| SplitBrain.LeadersAndReplicasPartition | packages/litefs/src/litefs/domain/split_brain.py:76-110 | Leaders and replicas partition the node list and the count is the number of leaders. |
| SplitBrain.FilterInOrder | packages/litefs/src/litefs/domain/split_brain.py:94-110 | Both lists keep the order of the node list. |
| SplitBrain.SingleLeaderExact | packages/litefs/src/litefs/domain/split_brain.py:85-92 | `has_single_leader` holds exactly when one position of the node list leads and no other; then nothing is reported. |
| SplitBrain.ReportsPositions | packages/litefs/src/litefs/usecases/split_brain_detector.py:87-102 | A split-brain is reported exactly when two member positions answer as leader. |
| SplitBrain.ReportExact | packages/litefs/src/litefs/usecases/split_brain_detector.py:87-102 | In terms of hosts: exactly when two hosts lead or a leading host is listed twice; with distinct hosts exactly when two hosts lead. |
| SplitBrain.TwoPortsOneLeader | packages/litefs/src/litefs/adapters/split_brain_detector_adapter.py:86-109 | One leading host listed with two ports is reported. |
| SplitBrain.LosingHostsOnlyClears | packages/litefs/src/litefs/adapters/split_brain_detector_adapter.py:111-141 | Making hosts unreachable can clear a report but never raise one. |
| PrimaryCache.CachedPrimaryDetector.IsPrimary | packages/litefs/src/litefs/usecases/cached_primary_detector.py:31-48 | The cached call: reply and new cache, failures leaving the cache alone. |
| PrimaryCache.RepliesExact | packages/litefs/src/litefs/usecases/cached_primary_detector.py:38-48 | Over every run each call returns its own answer, an exception included, when no refresh before it is less than ttl old, and the last refresh's answer otherwise; it refreshes exactly when it asked and got a value. |
| PrimaryCache.NoCaching | packages/litefs/src/litefs/usecases/cached_primary_detector.py:35-36 | Without a positive ttl every call returns its own answer and nothing is cached. |
| PrimaryCache.CacheIsLastRefresh | packages/litefs/src/litefs/usecases/cached_primary_detector.py:40-48 | Over every run the cache holds the value and reading of the last refresh. |
| PrimaryCache.BoundedStaleness | packages/litefs/src/litefs/usecases/cached_primary_detector.py:38-48 | Each value returned was given by the wrapped detector in this call or less than ttl before its clock reading. |
| PrimaryCache.RefreshesApart | packages/litefs/src/litefs/usecases/cached_primary_detector.py:40-47 | Successful refreshes start at least ttl apart, even when others raise in between. |
| PrimaryCache.RefreshRate | packages/litefs/src/litefs/usecases/cached_primary_detector.py:40-47 | N refreshes take at least (N - 1) * ttl of clock time. |
| BinaryVersions.PrintedParses | packages/litefs/src/litefs/domain/binary.py:105-107 | Printed numbers of any size read back as themselves. |
| BinaryVersions.RoundTrip | packages/litefs/src/litefs/domain/binary.py:80-117 | Reading a printed version, with any number of leading `v`s, gives the version. |
| BinaryVersions.PrintingIsInjective | packages/litefs/src/litefs/domain/binary.py:115-117 | Different versions print differently. |
| BinaryVersions.FromStringExact | packages/litefs/src/litefs/domain/binary.py:96-113 | What every text is read as: rejected unless two dots make three parts, each part is an integer and none is negative; otherwise the version with these numbers. |
| BinaryVersions.ParseExact | packages/litefs/src/litefs/domain/binary.py:105-107 | A part is an integer exactly when it is a numeral, digits with single underscores between them, with blanks around it and at most one sign, and has its decimal value. |
| BinaryVersions.DigitTable | packages/litefs/src/litefs/domain/binary.py:105-107 | The ten digits and how each is printed. |
| BinaryVersions.SplitExact | packages/litefs/src/litefs/domain/binary.py:98 | Splitting takes a text apart at every dot and loses nothing. |
| PathExclusion.CompilePatterns | packages/litefs/src/litefs/usecases/path_exclusion_matcher.py:43-52 | The constructor's loop gives one entry per pattern in order, and fails exactly when some regular expression does not compile. |
| PathExclusion.ExclusionIsDisjunction | packages/litefs/src/litefs/usecases/path_exclusion_matcher.py:59-88 | A path is excluded exactly when some pattern excludes it, in whatever order the patterns are listed. |
| PathExclusion.RegexPattern | packages/litefs/src/litefs/usecases/path_exclusion_matcher.py:44-46 | A pattern behind `re:` is given to the regular-expression engine without that prefix. |
| PathExclusion.LiteralPattern | packages/litefs/src/litefs/usecases/path_exclusion_matcher.py:85-86 | A pattern without special characters excludes the path that equals it and no other. |
| PathExclusion.SingleStar | packages/litefs/src/litefs/usecases/path_exclusion_matcher.py:85-86 | One star between literal texts: the path begins with the first and ends with the second, without overlap. |
| PathExclusion.SingleStarCrossesSegments | packages/litefs/src/litefs/usecases/path_exclusion_matcher.py:17-19 | This agrees with the documented one-segment reading exactly unless the star takes a slash. |
| PathExclusion.StaticTreeExcluded | packages/litefs/src/litefs/usecases/path_exclusion_matcher.py:19 | The documentation's own `/static/*` excludes a path two segments below. |
| PathExclusion.StarMatches | packages/litefs/src/litefs/usecases/path_exclusion_matcher.py:85-86 | A star stands for any text. |
| PathExclusion.QuestionMatches | packages/litefs/src/litefs/usecases/path_exclusion_matcher.py:85-86 | A question mark stands for one character. |
| PathExclusion.ClassMatches | packages/litefs/src/litefs/usecases/path_exclusion_matcher.py:85-86 | A bracket expression stands for one character that the engine accepts for the text between the brackets. |
| PathExclusion.UnclosedClassMatches | packages/litefs/src/litefs/usecases/path_exclusion_matcher.py:85-86 | A bracket that is never closed stands for itself. |
| PathExclusion.CollapseExact | packages/litefs/src/litefs/usecases/path_exclusion_matcher.py:75-77 | Every `**` is replaced by `*`, from left to right. |
| PathExclusion.DoubleStarAfterStar | packages/litefs/src/litefs/usecases/path_exclusion_matcher.py:74-84 | With a star before the text the glob half of the branch decides: the path contains the text, or begins with the base, star included. |
| PathExclusion.DoubleStarIsPrefix | packages/litefs/src/litefs/usecases/path_exclusion_matcher.py:74-84 | With literal text before the first `**` the branch is exactly a prefix test on that text without trailing slashes. |
| PathExclusion.DoubleStarCrossesSegments | packages/litefs/src/litefs/usecases/path_exclusion_matcher.py:74-84 | For every path, the branch agrees with the documented reading (the base itself or something below it) exactly unless the path lengthens the last segment of the base. |
| PathExclusion.SiblingExcluded | packages/litefs/src/litefs/usecases/path_exclusion_matcher.py:82-84 | Every pattern written for a directory excludes every sibling whose name begins like that directory. |
| PathExclusion.StaticFilesExcluded | packages/litefs/src/litefs/usecases/path_exclusion_matcher.py:18-20 | The documentation's own pattern excludes `/staticfiles`, which is not below `/static`. |

## Left out

- HTTP, request and response objects, header copying, signals, logging and metrics: the forwarding port is a stream of statuses and exception classes.
- The middleware's dispatch before `_forward_request` (method, exclusion, primary test) and settings parsing: straight-line checks.
- PySyncObj's Raft protocol is not part of this model: role changes and partner status are inputs, and the quorum claims assume that a node's status shows exactly its own network group as connected.
- `RaftSettings`' own membership validation: only its quorum formula is modelled.
- The split-brain request middleware, which turns the modelled report into a refusal and lets requests pass when detection fails.
- Floating-point rounding and overflow in times and backoff.
- An upper bound on interleaving delay: a sleep is any passage of time in module Interleaving.
- The cache and the coordinator under concurrent calls: both are modelled one call after another.
- Non-ASCII text, including case mapping that changes the length of a statement.
- Regular expressions in path patterns and the contents of bracket expressions are parameters of the matcher.
- Python's limit on the length of decimal integers, and its non-ASCII digits.
- The text of the error replies: a refusal keeps only its kind, its status and, for an open breaker, the retry time.
- Dataclass ordering of versions, binary download and resolution, marker files, YAML, management commands and health views.
- packages/py-leader/src/py_leader/raft_leader.py, an in-memory stand-in for the election.
