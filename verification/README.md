# A Dafny model of the Q&A API

The API is mostly plumbing around databases and Express. This project models the parts of it that hold
state machines, recursion or query construction, and proves what they keep and where they do not do what
their names promise:

| file | part of the API |
|---|---|
| `LogShipper.dfy` | the buffered log shipper with overlapping asynchronous flushes |
| `ConnectionMonitor.dfy` | circuit breaker, connection status and alert history |
| `Reconnect.dfy` | the internal WebSocket client's linear backoff |
| `SearchCompiler.dfy`, `SearchMeaning.dfy` | the search query compiler, and what its clauses mean |
| `Hierarchy.dfy` | the ancestor backfill over a possibly cyclic parent graph |
| `Reactions.dfy`, `ReactionStore.dfy` | likes and dislikes, and their PostgreSQL rows |
| `FollowGraph.dfy`, `FollowRows.dfy` | the follow relation kept by two separate writes, and its PostgreSQL rows |
| `Pagination.dfy`, `StableSort.dfy` | newest-first pages and page lookup |
| `TranslationCache.dfy`, `LocaleNegotiation.dfy` | the translation cache and Accept-Language negotiation |
| `IdLists.dfy`, `JsText.dfy`, `Optional.dfy` | shared vocabulary |

Each stateful component is a class whose methods are proved against a specification step (`Step`, `Apply`,
`Answer`, ...) of plain values; the theorems are about runs of those steps. JavaScript runs to completion,
so the code between two awaits is one atomic step, and where calls may overlap a call is split at its
awaits. Times are integers in milliseconds; the clock, the outcome of a bulk call, a ping, a socket or a
cache call, and the order in which a store lists documents are parameters.

## Where the code and the obvious reading part

Each of these is proved as an equivalence; where the condition does not already name it, a lemma shows a failing
case.

- Batches ship in order only if a success is the oldest flight, a failure the newest one, and a truncating
  failure the only one (or the oldest, met by a buffer of exactly 500): `SettleInOrderIff`,
  `OldestFirstFailuresSwap`.
- A stopped shipper leaves nothing behind unless it was disabled while it held entries, or a bulk call
  outstanding at the stop fails: what a failure brings back then has no timer to flush it:
  `StopLeavesNothingIff`.
- An open breaker holds until its time is up unless further probes were under way when it opened:
  `BreakerHoldsIff`, `OverlappingProbesEscapeIff`.
- A service's alerts alternate unless a configuration check throws while the service already counts as
  disconnected: `AlertsAlternateIff`, `ThrowingTwiceRepeatsLost`. What would have to throw is the e-mail
  check's read of `config.SMTP_HOST`, for a `config` that is null; the queue check reads nothing that can
  throw. The application never gets there: its setup reads `config.NODE_ENV` before it declares itself ready
  (services/ApplicationSetup.ts, lines 76-80), and before that no check is made. So in every run of the
  application every service's alerts alternate: `UnthrowingServiceAlternates`.
- `disconnect` is final unless a second pending timer exists, which takes two outside calls of `connect`:
  `DisconnectIsFinalIff`, `TwoConnectsEscapeDisconnect`.
- `minimum_should_match` counts clauses, not words: "half of the words" is right unless some text matches
  fewer than half of them but, counted once for each field, half; for words that are no typos of each other
  that means for one field only: `HalfReadingIff`, `HalfReadingOfApartWordsIff`.
- An exact phrase search for a repeated single word does not look for the repetition (`PhraseReadingIff`),
  and a fuzzy phrase of several words is an all_words search (`FuzzyPhraseIsAllWords`), although the source
  comments speak of word order; it always finds documents without the phrase (`FuzzyPhraseFindsRotation`).
- In fuzzy mode all_words need not lie within any_word, because short words and prefixes are measured word by
  word in one and by the average in the other: for every search that is not refused and every engine that
  counts one edit as one it does exactly when enough words are as loose in any_word: `FuzzyAllWordsNestsIff`,
  `FuzzyAllWordsFindsMore`.
- The stored ancestors follow the stored parent unless that parent kept stale ancestors, has a dangling
  parent, or has a parent chain that meets the question or is not over within fifty nodes; a question that is
  its own parent gets neither ancestors nor a parent: `StoredIndexFollowsParentIff`,
  `StaleAncestorsBreakTheIndex`.
- An answer's ancestors leave out its question exactly when the question stores ancestors without itself
  among them: for a question the backfill selected, when it has a parent; for a root that kept stale
  ancestors, too: `AnswerListsQuestionIff`, `BackfilledAnswerListsQuestionIff`, `AnswerOmitsItsQuestion`.
- Interleaved reactions leave a user on both lists exactly when an unlike or an undone dislike is written
  after somebody else on its list has switched sides: `InterleavingValidIff`, `LateWriteIsValidIff`,
  `InterleavedUnlikeBreaksDisjointness`. Of two users' overlapping calls the one that writes first is lost
  exactly when the other writes a list it changes: `OverlappingCallsIff`, `OverlapIsSerialIff`,
  `OverlappingLikesLoseOne`.
- On PostgreSQL an unlike erases all dislikes and an undone dislike all likes: `StoreRefinesIff`,
  `StoreRunRefinesIff`. Overlapping updates read back as the second one only if they contradict each other
  about nobody the first one names (`OverlappingUpdatesIff`), and an update cut off after its delete has
  erased everything (`CutOffUpdateErases`).
- On the document store two overlapping follow or unfollow calls keep both sides in agreement exactly when
  they share neither the user nor the follower (or are the same call): `OverlapKeepsGoodIff`,
  `OverlappingFollowsDisagree`. On PostgreSQL both sides are read from the same rows and always agree
  (`RowSurvivesIff`), and a call cut off between its writes is whole (`HalfCallIsWhole`); but of two
  overlapping calls on one user exactly the one that finishes last takes effect, and of two by one follower
  one is lost if the other starts writing after it has finished: `OverlappingWritesIff`,
  `OverlappingFollowsLoseOne`.
- Pages make up the list, and the lookup names the right page, only for positive limits, which nothing
  checks: `PagesCoverIff`, `LookupAgreesIff` (with the few exceptions).
- The translation key keeps twelve bytes of JSON, of which seven are the same for every message, and a shared
  cache may hold what other processes put there: `KeysEqualIff`, `AlwaysDirectIff`, `PasswordMessagesCollide`.
- A language with quality zero ranks last instead of being refused (sections 12.4.2 and 12.5.4 of RFC 9110):
  the answer is one the header refuses exactly when it lists supported languages and refuses them all, or
  lists none and refuses English through the wildcard: `ZeroQualityIsChosenIff`, `ZeroQualityIsChosen`,
  `ZeroWildcardIsIgnored`. A language counts as refused when every range with its primary subtag has quality
  zero, because the code cuts ranges to that.
- A weight written with blanks after the semicolon or with an upper-case Q, both of which RFC 9110 allows, is
  not read: `WeightIsReadIff`.
- A quality that is no number leaves the order of the languages to the sort, unless those that are numbers are
  all the same; the answer is then still fixed only if the header lists at most one supported language:
  `AnswerIsFixedIff`, `OpenHeaderDependsOnSort`. A range whose code is empty is dropped before the sort, whatever its quality.

## Model

| member | source | states |
|---|---|---|
| LogShipper.ElasticsearchLogShipper.StartShipper | infrastructure/elasticsearch/ElasticsearchLogShipper.ts:36-60 | starting sets the running flag, only when enabled, and changes nothing else |
| LogShipper.ElasticsearchLogShipper.StopShipper | infrastructure/elasticsearch/ElasticsearchLogShipper.ts:62-79 | stopping clears the flag and hands the whole buffer to one last bulk call |
| LogShipper.ElasticsearchLogShipper.ShipLog | infrastructure/elasticsearch/ElasticsearchLogShipper.ts:81-92 | one entry joins the buffer, and a full buffer is detached in the same step |
| LogShipper.ElasticsearchLogShipper.ShipLogs | infrastructure/elasticsearch/ElasticsearchLogShipper.ts:94-105 | the same for any number of entries |
| LogShipper.ElasticsearchLogShipper.BeginFlush | infrastructure/elasticsearch/ElasticsearchLogShipper.ts:107-132 | flush up to its await: the buffer becomes a batch in flight |
| LogShipper.ElasticsearchLogShipper.EndFlush | infrastructure/elasticsearch/ElasticsearchLogShipper.ts:136-150 | flush after its await: success ships the batch, failure restores it in front and truncates an oversized buffer |
| LogShipper.ElasticsearchLogShipper.RestoreBatch | infrastructure/elasticsearch/ElasticsearchLogShipper.ts:138-149 | a failed batch goes back in front; above 1000 entries the newest 500 stay and the others are dropped |
| LogShipper.ShipFlushesAtHundred | infrastructure/elasticsearch/ElasticsearchLogShipper.ts:81-105 | nothing changes unless configured, enabled and running; below a hundred the entries stay buffered and no flush begins, from a hundred on all of them leave as one batch |
| LogShipper.TickFlushesAnything | infrastructure/elasticsearch/ElasticsearchLogShipper.ts:107-132 | a periodic flush takes whatever is buffered, if configured and enabled |
| LogShipper.StartAndStop | infrastructure/elasticsearch/ElasticsearchLogShipper.ts:36-79 | what enabling, starting and stopping change |
| LogShipper.SettleMeaning | infrastructure/elasticsearch/ElasticsearchLogShipper.ts:136-150 | an answered bulk call ships its batch; a failed one restores it, and above a thousand entries keeps the newest 500 and drops the others |
| LogShipper.EveryRunAccepts | infrastructure/elasticsearch/ElasticsearchLogShipper.ts:36-105 | over every run exactly the entries shipped between a start and a stop, once enabled, are accepted, in order |
| LogShipper.EveryRunConserves | infrastructure/elasticsearch/ElasticsearchLogShipper.ts:81-151 | in every interleaving accepted entries are, as a multiset, the shipped, dropped, in-flight and buffered ones, and the buffer never exceeds 1000 |
| LogShipper.StepBounded | infrastructure/elasticsearch/ElasticsearchLogShipper.ts:81-151 | every step keeps the bound; entries are taken in exactly when enabled and running, and then fewer than 100 stay buffered, whatever size was shipped |
| LogShipper.StopDrainsAndCloses | infrastructure/elasticsearch/ElasticsearchLogShipper.ts:62-105 | a stop hands the buffer to a last flush exactly when the shipper is enabled (or there is nothing to hand), loses nothing, and takes nothing in until the next start |
| LogShipper.FailuresAfterStopAreStranded | infrastructure/elasticsearch/ElasticsearchLogShipper.ts:62-79 | between a stop and the next start the buffer stays empty exactly when no outstanding flight fails, and the newest 500 entries in it stay there unshipped |
| LogShipper.StopLeavesNothingIff | infrastructure/elasticsearch/ElasticsearchLogShipper.ts:62-149 | a stopped shipper ends with an empty buffer exactly when the stop drained it and every bulk call then outstanding succeeded |
| LogShipper.SettleInOrderIff | infrastructure/elasticsearch/ElasticsearchLogShipper.ts:112-149 | the exact condition under which settling one of several overlapping batches keeps entries in acceptance order |
| LogShipper.SingleFlightRunsShipInOrder | infrastructure/elasticsearch/ElasticsearchLogShipper.ts:112-149 | with at most one batch in flight the k-th entry to leave is the k-th accepted, and flight and buffer are the rest of the accepted sequence |
| LogShipper.TruncationKeepsNewest | infrastructure/elasticsearch/ElasticsearchLogShipper.ts:145-149 | a truncating failure of the only flight keeps exactly the newest 500 accepted entries |
| LogShipper.OldestFirstFailuresSwap | infrastructure/elasticsearch/ElasticsearchLogShipper.ts:136-138 | two overlapping batches failing oldest first come back swapped |
| ConnectionMonitor.Monitor.ShouldSkipCheck | services/WebSocketMonitorService.ts:327-336 | a check is skipped exactly while the skip time lies in the future |
| ConnectionMonitor.Monitor.RecordFailure | services/WebSocketMonitorService.ts:338-352 | a failure is counted, and from the third on the breaker opens for 30 s |
| ConnectionMonitor.Monitor.RecordSuccess | services/WebSocketMonitorService.ts:354-362 | a success clears the count and the skip time |
| ConnectionMonitor.Monitor.UpdateConnectionStatus | services/WebSocketMonitorService.ts:579-606 | the status is replaced, and a change to disconnected or from disconnected to connected raises one alert |
| ConnectionMonitor.Monitor.CreateAlert | services/WebSocketMonitorService.ts:660-686 | an alert is appended and the history cut to its last hundred |
| ConnectionMonitor.Monitor.EndDatabaseCheck | services/WebSocketMonitorService.ts:383-448 | what a database check does after its ping, for all three outcomes |
| ConnectionMonitor.Monitor.CheckConfigured | services/WebSocketMonitorService.ts:469-509 | the queue and e-mail checks, including the path that catches an exception at 648-658 |
| ConnectionMonitor.BreakerBoundsProbeRate | services/WebSocketMonitorService.ts:327-448 | over any run of non-overlapping checks failures is the current streak, the breaker is open iff the streak is at least 3, and the n-th failure comes no earlier than (n-3)*30000 ms after the third |
| ConnectionMonitor.SuccessClosesBreaker | services/WebSocketMonitorService.ts:354-400 | after any run one answered probe closes the breaker for every later time |
| ConnectionMonitor.CheckMeaning | services/WebSocketMonitorService.ts:327-448 | after any run a check is skipped exactly when the streak has three failures and the last is less than 30 s old; otherwise it ends the streak or adds one failure, sets the status, and touches no other service |
| ConnectionMonitor.RecoveryIsNoticed | services/WebSocketMonitorService.ts:327-400 | a check 30 s or more after the last failure pings, and an answer closes the breaker and restores the status |
| ConnectionMonitor.CheckIsBeginThenEnd | services/WebSocketMonitorService.ts:364-448 | a check is its begin followed by its end when nothing comes between |
| ConnectionMonitor.OpenBreakerSpendsFlights | services/WebSocketMonitorService.ts:327-386 | while the breaker is open and no probe is answered, each failure recorded is one probe fewer of those under way when it opened |
| ConnectionMonitor.BreakerHoldsIff | services/WebSocketMonitorService.ts:327-386 | no continuation records a failure while the breaker is open exactly when no probe was under way |
| ConnectionMonitor.OverlappingProbesEscapeIff | services/WebSocketMonitorService.ts:338-386 | of n probes begun together three failures open the breaker, which then holds exactly when n is 3 |
| ConnectionMonitor.AlertsAlternateIff | services/WebSocketMonitorService.ts:579-667 | in every run a service's full alert log alternates lost, restored, ... and agrees with its status, exactly when no check of it threw while it was disconnected |
| ConnectionMonitor.UnthrowingServiceAlternates | services/WebSocketMonitorService.ts:383-509 | a service none of whose checks throws has an alternating log that agrees with its status, in every run |
| ConnectionMonitor.ThrowingTwiceRepeatsLost | services/WebSocketMonitorService.ts:490-508 | the failing case: two e-mail checks that throw report the connection lost twice |
| ConnectionMonitor.AlertsCountOutages | services/WebSocketMonitorService.ts:579-752 | in every alternating run lost minus restored alerts is the number of services that are down |
| ConnectionMonitor.HistoryIsLastHundred | services/WebSocketMonitorService.ts:660-752 | the history is the last min(100, n) alerts of all services, and lost plus restored is the total |
| ConnectionMonitor.Monitor.GetMonitoringStats | services/WebSocketMonitorService.ts:735-752 | lost and restored are counted by filtering, add up to the total, and that is the number of alerts ever raised up to a hundred |
| Reconnect.InternalWebSocketClient.OpenSocket | services/InternalWebSocketClient.ts:23-57 | connect opens a socket, or schedules a reconnect when creating it throws |
| Reconnect.InternalWebSocketClient.ScheduleReconnect | services/InternalWebSocketClient.ts:79-93 | at most five attempts; the delay grows linearly and the newest timer is remembered |
| Reconnect.InternalWebSocketClient.OnOpen | services/InternalWebSocketClient.ts:27-31 | opening resets the attempts |
| Reconnect.InternalWebSocketClient.OnClose | services/InternalWebSocketClient.ts:42-47 | closing schedules a reconnect unless shutting down |
| Reconnect.InternalWebSocketClient.OnTimer | services/InternalWebSocketClient.ts:90-92 | a fired timer connects again |
| Reconnect.InternalWebSocketClient.Shutdown | services/InternalWebSocketClient.ts:59-73 | disconnect clears the remembered timer and forgets the socket |
| Reconnect.SocketEvents | services/InternalWebSocketClient.ts:27-52 | an open resets the attempts, an error clears the flag, a close schedules an attempt unless shutting down |
| Reconnect.OtherEvents | services/InternalWebSocketClient.ts:59-93 | what a call of connect, a fired timer and disconnect change |
| Reconnect.GivesUpAfterFive | services/InternalWebSocketClient.ts:27-93 | after an open, a close and no server five attempts are made and then none |
| Reconnect.BackoffIsBounded | services/InternalWebSocketClient.ts:79-93 | in every run at most 5 reconnects are scheduled between two opens, the k-th after 5000*k ms, 75000 ms in total |
| Reconnect.PendingBoundedByConnects | services/InternalWebSocketClient.ts:23-93 | live sockets and pending timers never outnumber the outside calls of connect; with one call the remembered timer is the only pending one |
| Reconnect.DisconnectIsFinalIff | services/InternalWebSocketClient.ts:59-93 | after disconnect no connect ever happens again, in any continuation, exactly when the remembered timer was the only pending one |
| Reconnect.SingleConnectDisconnectIsFinal | services/InternalWebSocketClient.ts:23-93 | with one outside call of connect disconnect is final in every run |
| Reconnect.TwoConnectsEscapeDisconnect | services/InternalWebSocketClient.ts:62-65 | with two outside calls a timer survives disconnect and connects |
| SearchCompiler.ElasticsearchIndexService.Search | infrastructure/elasticsearch/ElasticsearchIndexService.ts:306-857 | the must clauses: text query or match_all, exclusions, filters; a trimmed query of more than 200 UTF-16 units is refused |
| SearchCompiler.ElasticsearchIndexService.CompileText | infrastructure/elasticsearch/ElasticsearchIndexService.ts:317-829 | the bool query for mode, match type and tolerance, with minimum_should_match and min_score |
| SearchCompiler.ElasticsearchIndexService.CompileAnyWord | infrastructure/elasticsearch/ElasticsearchIndexService.ts:376-412 | one clause for each field and distinct word, short words exact |
| SearchCompiler.ElasticsearchIndexService.CompileFields | infrastructure/elasticsearch/ElasticsearchIndexService.ts:413-501 | one clause for each field in phrase and all_words mode, fuzzy by average word length |
| SearchCompiler.ElasticsearchIndexService.CompileNgrams | infrastructure/elasticsearch/ElasticsearchIndexService.ts:507-521 | one n-gram clause for each field |
| SearchCompiler.ElasticsearchIndexService.CompileFilters | infrastructure/elasticsearch/ElasticsearchIndexService.ts:846-857 | term and terms clauses; missing values are skipped |
| SearchMeaning.FuzzyWordMeaning | infrastructure/elasticsearch/ElasticsearchIndexService.ts:350-406 | which documents a fuzzy word clause accepts at each tolerance, in edits and prefix letters |
| SearchMeaning.ClausesAgainstWords | infrastructure/elasticsearch/ElasticsearchIndexService.ts:376-412 | matching clauses number at least the matched words and at most the matched words times the fields |
| SearchMeaning.HalfTheWords | infrastructure/elasticsearch/ElasticsearchIndexService.ts:747-779 | fuzzy any_word with three words or more: m >= ceil(W/2) suffices, m*F >= ceil(W/2) is necessary, and for F = 1 they coincide |
| SearchMeaning.HalfReadingIff | infrastructure/elasticsearch/ElasticsearchIndexService.ts:747-779 | "half of the words match" is right for all documents exactly when no text matches fewer than half of the words yet half once counted for each field |
| SearchMeaning.HalfReadingOfApartWordsIff | infrastructure/elasticsearch/ElasticsearchIndexService.ts:747-779 | for words more than two edits apart it is right exactly when one field is searched |
| SearchMeaning.ToleranceIsMonotone | infrastructure/elasticsearch/ElasticsearchIndexService.ts:350-829 | for every query, mode and document low finds no more than medium and medium no more than high, while thresholds never rise |
| SearchMeaning.ExactMeaning | infrastructure/elasticsearch/ElasticsearchIndexService.ts:375-779 | in exact mode the compiled query means its mode: some field has some word, all words, or the phrase contiguously |
| SearchMeaning.ExactModesNest | infrastructure/elasticsearch/ElasticsearchIndexService.ts:339-501 | phrase within all_words within any_word; for one distinct word the three are the same query |
| SearchMeaning.PhraseReadingIff | infrastructure/elasticsearch/ElasticsearchIndexService.ts:336-463 | an exact phrase search is a phrase search exactly unless the query repeats one single word |
| SearchMeaning.FuzzyPhraseIsAllWords | infrastructure/elasticsearch/ElasticsearchIndexService.ts:413-521 | in fuzzy mode phrase and all_words compile to the same query exactly when there are several distinct words (or no fields) |
| SearchMeaning.FuzzyIgnoresOrder | infrastructure/elasticsearch/ElasticsearchIndexService.ts:413-521 | no fuzzy search, in any mode, tells apart documents whose fields hold the same words in another order |
| SearchMeaning.FuzzyPhraseFindsRotation | infrastructure/elasticsearch/ElasticsearchIndexService.ts:417-427 | a fuzzy phrase of several distinct words finds documents that hold the words rotated, which the exact search refuses |
| SearchMeaning.FuzzySingleWord | infrastructure/elasticsearch/ElasticsearchIndexService.ts:507-745 | one distinct word, fuzzy: phrase equals any_word, and all_words finds no more because it drops the n-gram clauses |
| SearchMeaning.CoveredAllWordsNests | infrastructure/elasticsearch/ElasticsearchIndexService.ts:376-501 | with enough words as loose in any_word, fuzzy all_words lies within any_word for every engine and document |
| SearchMeaning.FuzzyAllWordsNestsIff | infrastructure/elasticsearch/ElasticsearchIndexService.ts:376-501 | for every search that is not refused and every engine that counts one edit as at most one: fuzzy all_words lies within any_word exactly when enough words are fuzzy in any_word with a prefix no longer than the average one |
| SearchMeaning.FuzzyAllWordsFindsMore | infrastructure/elasticsearch/ElasticsearchIndexService.ts:376-501 | the failing case, for every such engine: two short words and a long one, found with a letter added to the short ones |
| SearchCompiler.WordsAreTheRuns | infrastructure/elasticsearch/ElasticsearchIndexService.ts:339-343 | the words are the query's maximal runs of non-space characters, all of them and in order |
| SearchMeaning.TextSearchIff | infrastructure/elasticsearch/ElasticsearchIndexService.ts:324-829 | what a text search finds, by the names of mode, match type and tolerance: exact, fuzzy with edits and fixed letters, n-grams, averages and half of the words |
| SearchMeaning.ThresholdByName | infrastructure/elasticsearch/ElasticsearchIndexService.ts:690-820 | the score threshold by the names of the options and the number of distinct words |
| SearchMeaning.SearchFindsIff | infrastructure/elasticsearch/ElasticsearchIndexService.ts:306-872 | refused iff longer than 200 UTF-16 units; otherwise found iff wanted by the named options, not excluded and passing every filter with a value |
| Hierarchy.ComputeAncestors | scripts/backfill-ancestors.ts:60-150 | terminates on every graph and returns the specified list |
| Hierarchy.ComputedAncestors | scripts/backfill-ancestors.ts:60-150 | on any graph the result is exactly the longest prefix of the parent chain without repeat, avoiding the start, of at most 50 elements numbered by depth; only the last may be missing |
| Hierarchy.ComputedFollowsFields | scripts/backfill-ancestors.ts:60-150 | on any graph the result is the one list that starts at the given content, follows the recorded parents field by field, avoids the start and repeats, and stops at 50 or where nothing new follows |
| Hierarchy.AnswerParentIsFollowed | scripts/backfill-ancestors.ts:104-146 | a question under an answer gets the answer and the question that one answers |
| Hierarchy.AncestorsBackfill.BackfillQuestions | scripts/backfill-ancestors.ts:152-279 | whatever the listing order and batch boundaries, exactly the selected questions are updated from the loaded snapshot |
| Hierarchy.AncestorsBackfill.WriteBatches | scripts/backfill-ancestors.ts:199-272 | the loop over batches of loaded questions: what is written does not depend on where the batches end |
| Hierarchy.AncestorsBackfill.PrepareUpdate | scripts/backfill-ancestors.ts:206-260 | one question's update: its ancestors, and the first of them as parent |
| Hierarchy.AncestorsBackfill.WriteUpdates | scripts/backfill-ancestors.ts:262-265 | a bulk write adds exactly its batch to the updated questions |
| Hierarchy.BackfillFollowsFields | scripts/backfill-ancestors.ts:183-272 | which questions are selected and what is stored for each, field by field; everything else stays as it was |
| Hierarchy.BackfillIsIdempotent | scripts/backfill-ancestors.ts:183-272 | on any graph a second backfill changes nothing |
| Hierarchy.ShortPathIff | scripts/backfill-ancestors.ts:60-150 | whether the parent's list is short and avoids the question can be read off the parent chain |
| Hierarchy.ComputedFollowsParentIff | scripts/backfill-ancestors.ts:122-146 | the exact condition on the pointers under which a question's list is its parent followed by the parent's list one level up |
| Hierarchy.StoredIndexFollowsParentIff | scripts/backfill-ancestors.ts:183-272 | the exact condition, on the stored fields and the parent chain, for the stored index after the backfill; the stored parent is set right unless the question is its own parent, and then left alone |
| Hierarchy.AcyclicIndexFollowsParent | scripts/backfill-ancestors.ts:183-272 | on an acyclic graph with chains under 50 the stored index is the recursion it stands for |
| Hierarchy.StaleAncestorsBreakTheIndex | scripts/backfill-ancestors.ts:185-193 | a root that already carries ancestors is not selected and contradicts its child |
| Hierarchy.AncestorsBackfill.AnswerUpdate | scripts/backfill-ancestors.ts:320-361 | the ancestors written for one answer |
| Hierarchy.AnswerAncestorsAt | scripts/backfill-ancestors.ts:323-354 | element by element: the answer, then its question's stored ancestors one deeper each, or the question, or nothing if it is missing |
| Hierarchy.AnswerListsQuestionIff | scripts/backfill-ancestors.ts:323-354 | for any content: an answer's depths are 0..n-1 exactly when its question's are, and its question is listed exactly when it stores no ancestors or itself among them |
| Hierarchy.BackfilledAnswerListsQuestionIff | scripts/backfill-ancestors.ts:183-354 | after the question backfill: a selected question is listed exactly when it has no parent (or itself), any other exactly when its old ancestors list it |
| Hierarchy.AnswerOmitsItsQuestion | scripts/backfill-ancestors.ts:337-345 | an answer to a question with a parent does not list the question |
| Reactions.ReactionRepository.LikeContent | repositories/AnswerRepository.ts:111-133 | like, and repositories/QuestionRepository.ts 66-91: outcome, error and new document |
| Reactions.ReactionRepository.UnlikeContent | repositories/AnswerRepository.ts:135-153 | unlike writes the likes only |
| Reactions.ReactionRepository.DislikeContent | repositories/AnswerRepository.ts:155-180 | dislike moves the user and writes both lists |
| Reactions.ReactionRepository.UndoDislikeContent | repositories/AnswerRepository.ts:182-200 | undoing a dislike writes the dislikes only |
| Reactions.ApplyRefines | repositories/QuestionRepository.ts:66-158 | one call refines the attitude machine, errors included, and changes nothing for any other user |
| Reactions.RunRefines | repositories/AnswerRepository.ts:111-200 | over every run the lists stay disjoint and duplicate-free and equal each user's own history |
| Reactions.InterleavingKeepsListsClean | repositories/AnswerRepository.ts:112-132 | however calls interleave at their await, no list holds a user twice |
| Reactions.LateWriteIsValidIff | repositories/AnswerRepository.ts:111-200 | a call that read valid lists and writes when they have changed leaves valid lists exactly when nobody else has switched sides, towards the list it does not name, since it read |
| Reactions.InterleavingValidIff | repositories/AnswerRepository.ts:111-200 | in every interleaving the lists are valid after every step exactly when at every write nobody else has switched sides since that call read |
| Reactions.LikesAndDislikesInterleave | repositories/AnswerRepository.ts:111-180 | likes and dislikes alone keep the lists valid in every interleaving |
| Reactions.InterleavedUnlikeBreaksDisjointness | repositories/AnswerRepository.ts:139-179 | the failing case: an unlike that read before a dislike and wrote after it leaves a user in both lists |
| Reactions.OverlappingCallsIff | repositories/AnswerRepository.ts:111-200 | of two users' calls that both read before either wrote the last to write takes effect, and the other exactly when the last does not write a list it changes |
| Reactions.OverlapIsSerialIff | repositories/AnswerRepository.ts:111-200 | and exactly then, or for one user's two calls, their interleaving leaves the lists of the two calls in some sequence, namely in the order of their writes |
| Reactions.OverlappingLikesLoseOne | repositories/AnswerRepository.ts:111-133 | the failing case: of two overlapping likes only the last written stays |
| ReactionStore.AnswerPostgreSQLDataSource.DeleteReactions | repositories/postgresql/AnswerPostgreSQLDataSource.ts:202-205 | the first half of an update, up to the await of its delete |
| ReactionStore.AnswerPostgreSQLDataSource.CreateReactions | repositories/postgresql/AnswerPostgreSQLDataSource.ts:206-215 | the second half: a row for each named user whose key is free, likes first |
| ReactionStore.AnswerPostgreSQLDataSource.UpdateById | repositories/postgresql/AnswerPostgreSQLDataSource.ts:199-237 | both halves with nothing between them, and the lists read back |
| ReactionStore.CutOffUpdateErases | repositories/postgresql/AnswerPostgreSQLDataSource.ts:202-205 | after the delete alone the answer reads back without any reaction, and other contents are untouched |
| ReactionStore.FillMeaning | repositories/postgresql/AnswerPostgreSQLDataSource.ts:206-215 | a create gives its attitudes exactly to the users who have none |
| ReactionStore.EveryInterleavingReadsValid | repositories/postgresql/AnswerPostgreSQLDataSource.ts:199-215 | however the halves of updates interleave, no answer reads back with a user twice or on both sides |
| ReactionStore.OverlappingUpdatesIff | repositories/postgresql/AnswerPostgreSQLDataSource.ts:199-215 | of two updates that both delete before either creates the first wins user by user; the second reads back exactly when they contradict each other about nobody the first names |
| ReactionStore.AnswerPostgreSQLDataSource.LoadReactions | repositories/postgresql/AnswerPostgreSQLDataSource.ts:37-50 | reading the rows back as two lists |
| ReactionStore.StoreMeaning | repositories/postgresql/AnswerPostgreSQLDataSource.ts:199-215 | read-back likes are the written ones, dislikes those not also liking, each user once; an unnamed list is empty; other contents are untouched |
| ReactionStore.NothingNamed | repositories/postgresql/AnswerPostgreSQLDataSource.ts:202-215 | an update that names neither list touches no row |
| ReactionStore.RoundTripIff | repositories/postgresql/AnswerPostgreSQLDataSource.ts:199-215 | writing both lists and reading them back is faithful exactly when they are disjoint |
| ReactionStore.StoreRefinesIff | repositories/postgresql/AnswerPostgreSQLDataSource.ts:202-214 | a call on the store does what the in-memory machine does exactly when the list it does not name was empty |
| ReactionStore.StoreRunRefinesIff | repositories/postgresql/AnswerPostgreSQLDataSource.ts:202-214 | the same for whole runs, after every call |
| FollowGraph.UserRepository.FollowUser | repositories/UserRepository.ts:102-139 | the two writes of a follow, and its errors |
| FollowGraph.UserRepository.UnfollowUser | repositories/UserRepository.ts:141-170 | the two writes of an unfollow, and its errors |
| FollowGraph.RefusalMeaning | repositories/UserRepository.ts:102-156 | exactly when each error is raised |
| FollowGraph.ApplyMeaning | repositories/UserRepository.ts:128-167 | a follow appends to both lists, an unfollow removes from both, and nothing else changes |
| FollowGraph.ApplyEdges | repositories/UserRepository.ts:102-170 | a completed call adds or removes exactly its own edge on both sides |
| FollowGraph.RunKeepsGood | repositories/UserRepository.ts:102-170 | over every run of completed calls both sides agree, without self-loops or duplicates |
| FollowGraph.UnfollowUndoesFollow | repositories/UserRepository.ts:128-167 | unfollow restores both lists exactly, after a completed follow and after one interrupted between its writes |
| FollowGraph.HalfUnfollowNeedsTwoCalls | repositories/UserRepository.ts:151-167 | on the document store an unfollow interrupted between its writes cannot be retried; follow then unfollow completes it |
| FollowGraph.AloneIsApply | repositories/UserRepository.ts:102-170 | the four steps of a call, uninterrupted, are the completed call |
| FollowGraph.OverlapKeepsGoodIff | repositories/UserRepository.ts:111-167 | on the document store two calls, follows or unfollows, that both read before either wrote keep both sides in agreement, in any order of their writes, exactly when they are the same or share neither user nor follower |
| FollowGraph.OverlappingFollowsDisagree | repositories/UserRepository.ts:111-136 | the failing cases on the document store, reached from any good graph: two followers of one user, one follower of two users |
| FollowGraph.DisjointCallsKeepGood | repositories/UserRepository.ts:102-170 | in every run of any number of calls, read by read and write by write, in which calls under way share neither user nor follower, both sides agree whenever none is under way |
| FollowRows.UserPostgreSQLDataSource.DeleteMany | repositories/postgresql/UserPostgreSQLDataSource.ts:155-169 | deleting a user's rows on either side |
| FollowRows.UserPostgreSQLDataSource.CreateMany | repositories/postgresql/UserPostgreSQLDataSource.ts:157-178 | adding rows, duplicates skipped |
| FollowRows.UserPostgreSQLDataSource.UpdateById | repositories/postgresql/UserPostgreSQLDataSource.ts:154-180 | the rows after an uninterrupted update of either or both lists |
| FollowRows.RowSurvivesIff | repositories/postgresql/UserPostgreSQLDataSource.ts:154-180 | whatever database calls interleave: a pair is there exactly when it was created, or there at the start, and not deleted since; both sides agree on it |
| FollowRows.HalfCallIsWhole | repositories/UserRepository.ts:128-167 | on rows the first write of a call has its whole effect and the second changes nothing |
| FollowRows.OverlappingWritesIff | repositories/UserRepository.ts:111-167 | on rows: exactly when each of two overlapping calls takes effect, by the order of their writes; no other pair is touched |
| FollowRows.OverlappingFollowsLoseOne | repositories/UserRepository.ts:111-136 | the failing cases on rows: two follows of one user, and two by one user |
| StableSort.SortIsStable | repositories/AnswerRepository.ts:57-62 | the sort descends and keeps entries of equal key in their order |
| Pagination.AnswerRepository.FindByQuestionPaginated | repositories/AnswerRepository.ts:39-81 | one page of the sorted answers with its counts |
| Pagination.AnswerRepository.FindAnswerPageNumber | repositories/AnswerRepository.ts:83-105 | the page number computed from the answer's index |
| Pagination.ListingIsStablySorted | repositories/AnswerRepository.ts:54-62 | pages are cut from the question's answers, newest first by creation time, those of one time in stored order |
| Pagination.PageCounts | repositories/AnswerRepository.ts:64-79 | total, page and limit as reported, hasPrev iff an earlier page holds something, and how many entries a page shows |
| Pagination.PagesPartition | repositories/QuestionRepository.ts:229-246 | pages 1..totalPages concatenate to the whole list, and there is a next page iff the next page is not empty |
| Pagination.LookupAgreesWithPages | repositories/AnswerRepository.ts:39-105 | the lookup returns p exactly for the one page holding the answer, and nothing exactly when the question has no such answer |
| Pagination.UnnumberedPages | repositories/AnswerRepository.ts:66-68 | page 0 is empty; which entries, counted from the end, a negative page shows |
| Pagination.UnusableLimits | repositories/AnswerRepository.ts:64-79 | what each page shows, and whether it promises a next one, for a limit of zero or below |
| Pagination.PagesCoverIff | repositories/AnswerRepository.ts:64-68 | for every limit: the first pages make up the list exactly when the limit is positive or the list empty |
| Pagination.LookupAgreesIff | repositories/AnswerRepository.ts:39-105 | for every limit: lookup and pages agree exactly when the limit is not negative, there are no answers, or the first page shows one |
| TranslationCache.KeysEqualIff | types/i18n.ts:64-70 | two keys are equal iff the locales and the first 12 bytes of the JSON are (base64, section 4 of RFC 4648) |
| TranslationCache.FiveBytesCollide | types/i18n.ts:66-69 | messages whose English texts share five bytes share every key |
| TranslationCache.Base64Group | types/i18n.ts:66-69 | four symbols hold the bits of three bytes (table 1 of RFC 4648) |
| TranslationCache.JsonReadsBack | types/i18n.ts:66-69 | the JSON names en, tr and de in this order, and each text reads back from its literal (section 7 of RFC 8259) |
| TranslationCache.TranslationService.I18nSync | types/i18n.ts:118-137 | lookup through the memory cache |
| TranslationCache.TranslationService.BeginI18n | types/i18n.ts:73-84 | a call up to its first await, or to its end without a shared cache |
| TranslationCache.TranslationService.EndGet | types/i18n.ts:83-104 | from the shared cache's answer, or its failure, to the next await or the end |
| TranslationCache.TranslationService.EndSet | types/i18n.ts:90-115 | from the shared cache's set, or its failure, to the end |
| TranslationCache.TranslationService.ClearI18nCache | types/i18n.ts:140-143 | clearing empties the memory cache only |
| TranslationCache.AnswersAreBacked | types/i18n.ts:73-137 | in every reachable state, however calls interleave at their awaits and other processes write to the shared cache, an answer is the direct lookup of some message in use with the same key or was put there for that key by another process, and the memory cache holds at most 500 entries |
| TranslationCache.AlwaysDirectIff | types/i18n.ts:59-137 | every answer of every run is the direct lookup exactly when messages in use that share a key translate alike and other processes leave or write nothing else for them in the shared cache |
| TranslationCache.ConsistentWorldTranslates | types/i18n.ts:73-137 | in every run of a consistent world an answer is the text of the requested locale, or the English one where that is empty |
| TranslationCache.UndisturbedCall | types/i18n.ts:73-115 | an undisturbed call: shared cache, then memory, then the message, and what both caches hold afterwards |
| TranslationCache.FailingCacheIsBypassed | types/i18n.ts:109-115 | when the shared cache throws the message answers and no cache changes |
| TranslationCache.MemoryAnswers | types/i18n.ts:118-143 | lookup without a shared cache, remembering fewer than 500, and clearing |
| TranslationCache.DistinctPrefixesAreConsistent | types/i18n.ts:64-70 | distinct twelve-byte prefixes suffice for that, with a shared cache no other process writes to |
| TranslationCache.PasswordMessagesCollide | controllers/constants/ControllerMessages.ts:86-100 | two of the application's own messages answer for each other |
| LocaleNegotiation.NormalizeLocale | types/i18n.ts:14-50 | the loop over the sorted languages returns the first supported one, for every header and every outcome of a sort that is left open |
| LocaleNegotiation.NegotiatesBestLanguage | types/i18n.ts:17-49 | the supported language of greatest quality, as the code's pattern reads it, earliest on ties, else English; the comparison with the raw header never decides |
| LocaleNegotiation.SupportedIsAnswered | types/i18n.ts:11-42 | each of the three languages alone is its own answer |
| LocaleNegotiation.CodeIsPrimarySubtag | types/i18n.ts:20-27 | the code of a range is its primary subtag in lower case, without blanks, further subtags and parameters |
| LocaleNegotiation.DecimalIsRead | types/i18n.ts:29-30 | the value of a decimal weight |
| LocaleNegotiation.ZeroQualityIsChosenIff | types/i18n.ts:28-42 | the chosen quality is positive exactly when a supported one is; exactly when the answer is a language the header refuses, by its own ranges or by the wildcard |
| LocaleNegotiation.ZeroQualityIsChosen | types/i18n.ts:28-42 | the failing case: alone, a language of quality zero is chosen |
| LocaleNegotiation.ZeroWildcardIsIgnored | types/i18n.ts:28-49 | the failing case: a wildcard of quality zero leaves English chosen |
| LocaleNegotiation.WeightIsReadIff | types/i18n.ts:29-30 | a written weight is read exactly when no blank follows the semicolon and its letter is lower case, or it is 1 |
| LocaleNegotiation.LevelKeepsOrder | types/i18n.ts:31-42 | while the qualities that are numbers are all the same the answer is the first supported language listed, or English |
| LocaleNegotiation.OpenStaysListed | types/i18n.ts:31-49 | with different numbers and a NaN the answer is still a supported language the header lists, or English if none |
| LocaleNegotiation.AnswerIsFixedIff | types/i18n.ts:31-49 | the answer does not depend on the sort exactly when the kept qualities are all numbers, or those that are numbers are all the same, or no two different supported languages are listed |
| LocaleNegotiation.OpenHeaderDependsOnSort | types/i18n.ts:31-42 | the failing case: a header whose answer is the sort's to decide |

## Left out

- FindByQuestionPaginated: page and limit are whole numbers.
- NormalizeLocale: quality values are exact reals, lower-casing covers ASCII letters, and a sort that is left
  open is taken to return some permutation.
- EndGet: the shared cache's value is the one it holds when the get returns; its one-hour lifetime is not
  modelled beyond the fact that it may forget any key.
- KeysEqualIff: messages list their locales in the order en, tr, de.
- StartShipper: the interval timer and the index template are not modelled; a periodic flush may come at any
  step, except in the lemmas about a stopped shipper, whose timer is cleared.
- EndFlush: a failed bulk call is taken to have written nothing, and a successful one everything.
- FuzzyWordMeaning: the edit distance is a parameter; analyzers, stemming and scores are foreign.
- CompileText: smart search (synonyms and semantic clauses) is off; boosts are not modelled, and min_score is
  recorded but not applied, because it compares with a score.
- BackfillQuestions: a stored `ancestors: null`, which the query does not select, is not represented.
- AnswerUpdate: the batched writes of `backfillAnswers` repeat those of the questions and are not modelled.
- UpdateById: its third await, the update of the answer's other fields, touches no reaction.
- FollowUser: users are neither created nor deleted while calls are under way.
- OverlapKeepsGoodIff: the store is the one that keeps the two lists in the two users' documents; `FollowRows`
  has PostgreSQL's.
- OverlappingWritesIff: an update's delete and create are one step here; interleaved apart they are covered
  by `RowSurvivesIff`.
- LoadReactions: rows are listed in insertion order; the theorems use only which users are listed.
- EndDatabaseCheck: host names, messages, details, broadcasts and e-mail notifications are not modelled, and
  the clock does not move within a step.
- Client bookkeeping of the monitor (`startMonitoring`, `stopMonitoring`, sockets): easy flags.
- The question filters of `findPaginated` and its other sort keys: single filters; the partition into pages is
  proved for any list.
- `ConnectionMonitorService`, bookmarks, notifications, permissions, migrations, reindexing, controllers,
  routers and the remaining data sources: plumbing or easier relatives of what is here.
