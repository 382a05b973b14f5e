# PSOP verification models

Dafny models of the parts of PSOP where several steps, retries or tables have to agree with one another,
with proofs of what they keep. `dafny verify dfyconfig.toml` checks everything.

| modules | what they model |
|---|---|
| `TerminalEvents`, `TerminalClient`, `TerminalProtocol`, `TerminalRuns`, `TerminalEffects`, `TerminalShown` | the browser's replica of a run's append-only terminal log: merging by sequence number, the client object, and every interleaving of server appends, lost, repeated or reordered pushes, reads, sends with lost replies, and views torn down and reopened; and when the user sees input that is still being sent |
| `TaskStatus`, `ReplayCache` | which task status the client holds, and when its "replay loaded" marker can be trusted |
| `DanglingToolCalls` | repair of a message history so that every tool call is answered |
| `RepositoryCommit` | committing several files to GitLab over a network that loses replies |
| `JsNumber`, `TimelineIds`, `IdSupply`, `Timeline`, `TimelineNormal`, `TimelineEnds`, `TimelinePlaces`, `TimelineDrag`, `EditorConfig`, `OutputBinding` | the skill-test timeline editor: id repair over JavaScript numbers and when it ends, clamping, stable sort, lanes, group drag, and the binding of runtime outputs to expectations |
| `RunPersistence`, `Executor`, `ToolBudget`, `ModelBudget` | one agent run: its event log, two ways of storing it, the continuation loop, error and call budgets, token totals |
| `EgDiagram` | edge normalisation, layout and edge routing of the execution-graph diagram |
| `ByteRange`, `PythonText`, `Decimal` | serving one byte range of a file (sections 14.1.2 and 14.4 of RFC 9110) |

Code that updates fields in place is a class whose methods are proved against functions on the class's abstract value;
the long-run results are then lemmas about those functions.

## What is assumed

- Terminal server: sequence numbers are 1, 2, 3, ... in log order, external ids in the log are unique, `from_seq` is
  inclusive, a read returns the log as it was at some earlier moment, and neither server event ids nor external ids of other producers look like
  client-made local ids.
- GitLab: no other writer; a read that answers shows the true hash or the true content, and a 404 means an absent file; equal hashes mean equal bytes
  (`Injective`, stated where it is used); a commit request takes effect, whole or not at all, before its reply or error
  returns; a create of a present path or an update of an absent one spoils the whole commit; the branch head is the id of
  the last commit, and ids are not empty.
- Database: a save is one transaction; a live insert may fail at any event.
- Times, pointer positions and durations are real numbers. The counter of the id search follows IEEE double
  rounding exactly; how a double is printed is a parameter, and where a result needs it, whole numbers up to 2^53
  are taken to print in decimal (`PrintsDecimal`), or all doubles to print differently, without an underscore, and
  so that a text of digits reads back as the same number (`PrintsNumbers`); `IdSupply.DecimalPrints` shows that both can hold.

## Where the code falls short of its promise

Each has a lemma with the failing input and one with the exact condition.

- **The id search can run for ever.** A counter at 2^53 no longer moves when one is added, so one event called
  `<prefix>_9007199254740992` makes `nextSkillTestTimelineEventId` loop (`TimelineIds.SearchCanDiverge`,
  `TimelineNormal.NormalizeCanDiverge`). Normalising a draft ends exactly when the events that need an id can be given
  numbers of their own, unreserved and within reach of their searches (`TimelinePlaces.NormalizeEndsExactly`). As long as no
  search starts above 2^53 this is a count: at every event that needs an id, the unused numbers from the top of its prefix
  up to 2^53 are as many as the ids of that prefix needed from there on (`TimelineEnds.NormalizeEndsIff`).
- **Live rows can miss events.** After a completed `invoke` the table equals the log exactly when the run was stored
  in one batch or no live insert failed (`RunPersistence.StoredExactlyIff`); the exception of a failed live insert only turns the
  run into a failed one, and that is stored (`RunPersistence.LiveRowCanBeMissing`).
- **A stale reply may leave a gap.** A read begun by an earlier view of the same run leaves 1..n present exactly when nothing
  was missing below its start (`TerminalRuns.ReplyCompletesIff`, `TerminalRuns.StaleReplyLeavesGap`); a reply to the
  present view always completes it.
- **Accepted input can come back as a draft.** When the failure-path lookup itself fails, or reads the log too early, the draft is
  restored although the log holds the input or will hold it (`TerminalRuns.DraftRestoredIff`,
  `TerminalRuns.RestoredThoughAccepted`). A lookup that outlives its view writes into the new view's draft;
  `TerminalRuns.LookupDecides` holds for it too.
- **Input under way can disappear.** A sent input is neither shown as pending nor as the server's event exactly when another
  producer's event was received under the number given to its entry and the input itself was not
  (`TerminalShown.InputHiddenIff`, `TerminalShown.InputCanBeHidden`).
- **The replay marker can be stale.** An event that arrives on another tab does not cancel a replay request in flight
  (`ReplayCache.MarkerCanBeStale`); `ReplayCache.LoadedReplay` says exactly when the held replay is current.
- **Surplus answers can be dropped.** The answers of a called id are all sent on exactly when nothing in the history dangles, or
  the id has no more answers than calls (`DanglingToolCalls.NothingDroppedIff`, `DanglingToolCalls.SurplusAnswerLost`).
- **A repeated commit may commit twice.** This happens exactly when `files` and `binary_files` ask for two contents
  of one path (`RepositoryCommit.AtMostOnceIff`); then every further call that meets no fault commits once more, as
  `RepositoryCommit.CommitRepeatedly` shows of the call itself.
- **Some `Range` headers end in an uncaught error.** Python's `isdigit` accepts superscript digits, which `int`
  rejects, as it does numerals of more than 4300 digits (`ByteRange.CrashIff`, `ByteRange.SuperscriptCrashes`).
- **A known edge can be lost.** Two different edges share a key, and the later is dropped, exactly when there are
  `p`, `m`, `s` such that `p`, `p->m`, `s` and `m->s` are all node ids (`EgDiagram.EveryEdgeKeptIff`,
  `EgDiagram.KeysCanClash`).

## Model

| member | source | states |
|---|---|---|
| TerminalEvents.MergeBySeq | static/js/utils/runtime-events.js:17-31 | the two-loop table merge yields exactly the specified listing: one entry per sequence number, ascending |
| TerminalEvents.MergedFields | static/js/utils/runtime-events.js:17-31 | a merge of any two lists has one entry per number found in either, ascending, whose every field comes from the topmost record that has it: the last existing one, under all incoming ones in order |
| TerminalEvents.MergeReal | static/js/app/runtime.js:762-784 | merging server events into a sorted transcript gives a sorted transcript holding exactly the incoming events and the entries they do not displace, so no field of an optimistic entry survives in a real one |
| TerminalEvents.MergeOptimistic | static/js/app/runtime.js:450-450 | an optimistic event with a sequence number above all others is appended and disturbs nothing |
| TerminalEvents.LeastMissingFrom | static/js/app/runtime.js:814-824 | the number found is missing, and every number from the start up to it is held |
| TerminalClient.Client.UpdateLatest | static/js/app/runtime.js:791-801 | the held latest number becomes the maximum of itself and all sequence numbers, only while a run is open |
| TerminalClient.Client.MergeTerminalEvents | static/js/app/runtime.js:762-788 | the object's transcript becomes the specified merge and its latest number follows; nothing else changes |
| TerminalClient.Client.NextTerminalReconcileFromSeq | static/js/app/runtime.js:814-824 | the counting loop ends, at the least positive number that no real entry has |
| TerminalClient.Client.NextOptimisticTerminalSeq | static/js/app/runtime.js:804-811 | the number returned is above that of every entry held |
| TerminalClient.Client.HandleAppended | static/js/app/runtime.js:662-687 | a push opens a reconcile exactly when it leaves a gap on a mounted tab, and is merged in any case |
| TerminalClient.Client.RequestReconcile | static/js/app/runtime.js:973-986 | a request is started exactly when the open view has none in flight from the same start |
| TerminalClient.Client.ReconcileReply | static/js/app/runtime.js:987-997 | a reply is merged if a view of the run is open, and frees only its own request slot |
| TerminalClient.Client.SendTerminalInput | static/js/app/runtime.js:438-452 | a send happens only from an open idle usable view; the start point returned is the one before the optimistic entry was added |
| TerminalClient.Client.SendAcknowledged | static/js/app/runtime.js:457-475 | the acknowledged event is merged only into the view that sent |
| TerminalClient.Client.AcceptanceReply | static/js/app/runtime.js:486-499 | acceptance is reported exactly when the read holds the external id; otherwise the optimistic entry goes and the draft returns |
| TerminalClient.Client.SummaryReply | static/js/app/runtime.js:347-361 | a summary can change only the latest number, which stays at or above every entry |
| TerminalClient.Client.SendFinished | static/js/app/runtime.js:502-506 | only the view that sent stops being busy |
| TerminalClient.Client.DestroyView | static/js/app/runtime.js:385-423 | everything shown is dropped and the generation moves on |
| TerminalClient.Client.OpenView | static/js/app/runtime.js:182-213 | a view opens on the server's latest number |
| TerminalRuns.RunKeepsInv | static/js/app/runtime.js:438-507 | every step of every run keeps the whole protocol invariant (log, transcript, sends, saved starts, reads in flight) |
| TerminalRuns.TranscriptFaithful | static/js/app/runtime.js:762-788 | in every reachable state the transcript is strictly sorted, every non-optimistic entry equals the server's event at that number, and no external id is shown twice |
| TerminalRuns.OptimisticDiscipline | static/js/app/runtime.js:438-452 | in every reachable state there is at most one optimistic entry, only in an open busy view, and a fresh optimistic number exceeds every number held |
| TerminalRuns.RealNeverLost | static/js/app/runtime.js:774-784 | until the view is torn down, no run of steps ever loses a real entry |
| TerminalProtocol.ReconcileFromCovers | static/js/app/runtime.js:814-824 | below the start of a reconcile the transcript holds the whole log |
| TerminalRuns.ReplyCompletesIff | static/js/app/runtime.js:988-991 | a reply that saw n log entries leaves 1..n present if and only if nothing was missing below its start |
| TerminalRuns.ReplyCompletes | static/js/app/runtime.js:973-991 | a reply to a read of the present view leaves 1..n present |
| TerminalRuns.PushStartsRead | static/js/app/runtime.js:672-680 | in every reachable state a push starts a read exactly when the tab is mounted and something below the pushed event is missing, from the first missing event on, unless the slot holds a read from there |
| TerminalRuns.SocketStartsRead | static/js/app/runtime.js:973-986 | an opened socket over a mounted tab starts a read from the first missing number, unless the slot holds one from there |
| TerminalRuns.BusyWhileSending | static/js/app/runtime.js:502-506 | in every reachable state the view is busy exactly while a send of its own is under way, and its slot holds a read of its own still in flight |
| TerminalRuns.StaleReplyLeavesGap | static/js/app/runtime.js:988-991 | a reachable state in which a reply that saw two log entries leaves the first missing |
| TerminalRuns.StartNotAboveInput | static/js/app/runtime.js:447-447 | the start saved before a send never exceeds the number the log gives that input |
| TerminalRuns.LookupDecides | static/js/app/runtime.js:485-498 | the failure-path lookup restores the draft if and only if the log it read lacks the input; otherwise an open view shows the server's event, and no optimistic entry of that send remains either way |
| TerminalRuns.DraftRestoredIff | static/js/app/runtime.js:952-970 | over answered and failed lookups alike, the draft is restored if and only if no answer shows the input, and the server can still accept it afterwards |
| TerminalRuns.RestoredThoughAccepted | static/js/app/runtime.js:967-969 | a reachable state in which the log holds the input and the draft offers it again |
| TerminalShown.EntryMissingIff | static/js/app/runtime.js:774-784 | in every reachable state an unsettled send has no optimistic entry if and only if a server event under the entry's number, or the input itself, was received |
| TerminalShown.InputHiddenIff | static/js/app/runtime.js:774-784 | unsettled input is out of sight altogether if and only if another event took its number and the input itself was not received |
| TerminalShown.InputCanBeHidden | static/js/app/runtime.js:776-778 | a reachable state with a send under way of which an open view shows nothing |
| TerminalEffects.PushTakesIn | static/js/app/runtime.js:662-687 | in every reachable state a push takes exactly its event into an open view: every real entry stays, an optimistic one unless the event has its number or its external id, and the latest number follows |
| TerminalEffects.ReadTakesIn | static/js/app/runtime.js:987-997 | a reply takes in exactly the log's events from the start of its request on, likewise, and frees the slot only if that request is in it |
| TerminalEffects.ReadFails | static/js/app/runtime.js:993-997 | a failed read changes nothing but the slot, and that only if it was its own |
| TerminalEffects.SendShows | static/js/app/runtime.js:438-452 | a send needs an open, idle, usable view; it empties the draft and adds one entry with the text, above everything shown or known |
| TerminalEffects.SendRemembers | static/js/app/runtime.js:440-449 | a send records its text, its view, the number of its entry and the first missing number, from which its failure-path lookup reads |
| TerminalEffects.AckTakesIn | static/js/app/runtime.js:457-478 | an acknowledgement takes the server's event into the view that sent, and does nothing to any other |
| TerminalEffects.ErrorLooksUp | static/js/app/runtime.js:480-490 | a failed send is looked up by the view that sent and is otherwise forgotten |
| TerminalEffects.LookupTakesIn | static/js/app/runtime.js:485-499 | a lookup that shows the input takes in the server's event |
| TerminalEffects.LookupGivesBack | static/js/app/runtime.js:491-506 | a lookup that does not gives the text back to the draft, takes away the input's optimistic entry and nothing else, and ends the send |
| TerminalEffects.SummaryRaises | static/js/app/runtime.js:347-361 | a summary sets an open view's latest number to the greater of the server's and all numbers shown, and changes nothing else |
| TerminalEffects.RefreshEnds | static/js/app/runtime.js:476-506 | the refresh ends the send, with or without its summary, and only the view that sent stops being busy |
| TerminalEffects.ViewsComeAndGo | static/js/app/runtime.js:385-423 | a teardown leaves an empty, idle view of the next generation, an opened view starts empty on the server's number, and what is under way goes on |
| TerminalEffects.OthersIdle | static/js/app/runtime.js:280-303 | what the server does to its log changes nothing else; the load of an open view reads everything; a socket that opens without a mounted tab starts nothing |
| TaskStatus.StatusView.Apply | static/js/app/runtime.js:704-724 | a delivery is taken exactly when it is for the active run and newer than what is held |
| TaskStatus.HeldIsGreatest | static/js/utils/runtime-events.js:33-46 | after any deliveries the held status has the greatest (snapshot_seq, updated_at) among those for the run, and is one of them |
| TaskStatus.OrderIrrelevant | static/js/utils/runtime-events.js:33-46 | any order and repetition of the same deliveries ends with the same key |
| TaskStatus.NeverGoesBack | static/js/app/runtime.js:704-716 | further deliveries never bring an older key back |
| TaskStatus.NoRunTakesNone | static/js/app/runtime.js:704-716 | a client without an active run takes no status |
| ReplayCache.ReplayView.ScheduleRefresh | static/js/app/runtime.js:727-732 | a refresh makes every reply in flight worthless and clears the marker |
| ReplayCache.ReplayView.HandleAppended | static/js/app/runtime.js:683-686 | an event clears the marker, and invalidates requests in flight only on the replay tab |
| ReplayCache.ReplayView.LoadReplay | static/js/app/runtime.js:305-336 | a load joins the request in flight or starts one that carries the current generation |
| ReplayCache.ReplayView.ReplayReply | static/js/app/runtime.js:326-343 | a reply is kept only under the generation it was asked in |
| ReplayCache.LoadStarts | static/js/app/runtime.js:305-336 | in every run, a wanted load or the choice of the replay tab starts exactly one request, of the present generation and moment, unless one is under way or the marker is set |
| ReplayCache.EventsVoid | static/js/app/runtime.js:683-732 | an event clears the marker; on the replay tab, as after a scheduled refresh or a teardown, no request under way can be kept any more, while on another tab those of the generation still can |
| ReplayCache.RequestEnds | static/js/app/runtime.js:326-344 | a request that ends leaves and frees the slot if it is the one there; only a reply of the present generation sets the marker |
| ReplayCache.LoadedReplay | static/js/app/runtime.js:305-344 | in every run, a set marker means the replay was requested after every event seen on the replay tab; it is current if and only if no event came on another tab since |
| ReplayCache.MarkerCanBeStale | static/js/app/runtime.js:683-686 | a five-step run ends with the marker set and an event missing |
| DanglingToolCalls.CollectAnswers | backend/app/agent_harness/middlewares/dangling_tool_call.py:15-18 | each id's queue holds exactly its answers in order |
| DanglingToolCalls.CollectCallIds | backend/app/agent_harness/middlewares/dangling_tool_call.py:20-27 | the set holds exactly the ids that some call carries |
| DanglingToolCalls.CalledIff | backend/app/agent_harness/middlewares/dangling_tool_call.py:20-27 | an id counts as called exactly when it is not missing and some call of some message carries it |
| DanglingToolCalls.AnswerCalls | backend/app/agent_harness/middlewares/dangling_tool_call.py:37-53 | popping the queues hands the k-th call of an id its k-th answer; a change is reported exactly when some queue was empty |
| DanglingToolCalls.BuildPatchedMessages | backend/app/agent_harness/middlewares/dangling_tool_call.py:14-54 | returns nothing if and only if every id has at least as many answers as calls, else the rebuilt list |
| DanglingToolCalls.RebuiltList | backend/app/agent_harness/middlewares/dangling_tool_call.py:29-54 | in the rebuilt list each message is followed at once, in call order, by one answer per identified call: the id's next original answer, or past the last one an interruption notice under the call's own id and name; everything else keeps its order |
| DanglingToolCalls.SecondRepair | backend/app/agent_harness/middlewares/dangling_tool_call.py:14-54 | a rebuilt list is never dangling, and rebuilding it reproduces it |
| DanglingToolCalls.WrapModelCall | backend/app/agent_harness/middlewares/dangling_tool_call.py:57-61 | the model gets the rebuilt list when some id is short, and the untouched history otherwise |
| DanglingToolCalls.SentIsSettled | backend/app/agent_harness/middlewares/dangling_tool_call.py:57-61 | what is sent never dangles, and would be sent unchanged again |
| DanglingToolCalls.NothingDroppedIff | backend/app/agent_harness/middlewares/dangling_tool_call.py:32-54 | all original answers of a called id are sent on if and only if nothing dangles or they are no more than its calls |
| DanglingToolCalls.SurplusAnswerLost | backend/app/agent_harness/middlewares/dangling_tool_call.py:32-54 | a history of three messages that loses an answer |
| RepositoryCommit.Gateway.Get | backend/app/gateway/gitlab.py:181-280 | a read is repeated exactly while it is lost or answered with a retryable status, up to three times, and its last exchange decides |
| RepositoryCommit.Gateway.RequestFile | backend/app/gateway/gitlab.py:394-402 | a normal return is the truth about the file and a 404 means it is absent; one answered exchange is enough for either; up to three exchanges, repeated exactly while one is lost or answered with 429 or a server error |
| RepositoryCommit.Gateway.MatchMeansEqual | backend/app/gateway/gitlab.py:572-582 | the payload test holds exactly for equal bytes, by hash or by content |
| RepositoryCommit.Gateway.PlanFiles | backend/app/gateway/gitlab.py:516-541 | a diff that succeeds lists exactly the files that lack their content, as create or update according to the repository; without a fault it succeeds |
| RepositoryCommit.Gateway.FilesMatch | backend/app/gateway/gitlab.py:584-592 | a confirmed match means every expected path holds its bytes; without a fault the answer is exact |
| RepositoryCommit.Gateway.Confirm | backend/app/gateway/gitlab.py:554-557 | a failed commit request is forgiven only if all planned bytes are in place, and is if they are and no fault follows |
| RepositoryCommit.Gateway.BranchHead | backend/app/gateway/gitlab.py:358-370 | a normal return is the id of the branch's last commit, and an exchange that goes well gives one |
| RepositoryCommit.Gateway.CommitRepositoryFiles | backend/app/gateway/gitlab.py:507-558 | whatever is lost, a call leaves the repository alone or performs exactly its planned commit once, and a normal return means the former only if nothing was to do, and carries the id of the branch's last commit; when the exchanges that matter go well it returns normally if and only if the server takes its plan, and if only the reply to a commit that took effect is lost it returns normally too |
| RepositoryCommit.MatchMeansCommitted | backend/app/gateway/gitlab.py:554-557 | when the files match after a failed request, the request did take effect |
| RepositoryCommit.PlanAccepted | backend/app/gateway/gitlab.py:516-541 | over distinct paths the server accepts every plan |
| RepositoryCommit.OneCall | backend/app/gateway/gitlab.py:507-558 | a normal return means all paths hold their bytes; other paths never change; a call with nothing to do does nothing |
| RepositoryCommit.RepeatedCalls | backend/app/gateway/gitlab.py:507-558 | over any number of calls with any failures at most one commit takes effect, other paths never change, and after a normal return all bytes stay in place |
| RepositoryCommit.AtMostOnceIff | backend/app/gateway/gitlab.py:507-558 | at most one commit in every history if and only if no path is asked to hold two contents |
| RepositoryCommit.ContestedCalls | backend/app/gateway/gitlab.py:516-541 | in every history of fault-free calls for a contested request over present paths, each call returns normally and commits once more |
| RepositoryCommit.CommitRepeatedly | backend/app/gateway/gitlab.py:507-558 | the call itself, made any number of times: at most one commit for uncontested requests whatever goes wrong, one commit per call for contested ones over present paths when nothing does, and the id of the last commit from a last call that returns normally |
| RepositoryCommit.CommitsTwice | backend/app/gateway/gitlab.py:516-541 | for every contested request, a history in which two fault-free calls, whose effect is thereby determined, both commit |
| JsNumber.NearestIsClosest | static/js/app/skill-test.js:284-287 | the rounding of a whole number is the nearest double of all, and of two equally near ones the even one |
| JsNumber.IncSettles | static/js/app/skill-test.js:287-287 | from 2^53 on, adding one moves a double at most once and then never again |
| TimelineIds.NextEventId | static/js/app/skill-test.js:270-291 | the loop finds the first free candidate from the highest number in use, or is one that has no end |
| TimelineIds.NextIdIff | static/js/app/skill-test.js:284-290 | a fresh id is found if and only if some number the counter can reach is free, and it is then new and not reserved |
| TimelineIds.FreshIdWhenRoom | static/js/app/skill-test.js:270-291 | the search ends whenever the start and the number of taken ids together stay within 2^53 |
| IdSupply.OwnSearch | static/js/app/skill-test.js:284-290 | after any ids handed out, the next search under a prefix takes the least unused number, and fails exactly when none is left |
| TimelineIds.SearchCanDiverge | static/js/app/skill-test.js:286-289 | one id that prints 2^53 makes the search endless |
| Timeline.PickId | static/js/app/skill-test.js:345-353 | an event keeps a usable id and otherwise gets a fresh one |
| Timeline.NormalizeEvents | static/js/app/skill-test.js:333-385 | the mapping loop with its growing list of accepted events refines the recursive normalisation |
| Timeline.SortMembers | static/js/app/skill-test.js:386-386 | sorting yields a time-ordered permutation of the events |
| Timeline.SortStable | static/js/app/skill-test.js:386-386 | simultaneous events keep their order |
| TimelinePlaces.NormalizeEndsExactly | static/js/app/skill-test.js:322-388 | for every draft, normalising ends if and only if the events that need an id can be given numbers of their own, unreserved and within reach of their searches |
| TimelinePlaces.RunPlaces | static/js/app/skill-test.js:345-353 | whenever it ends, the ids handed out are such an assignment |
| TimelinePlaces.HighFindsPlace | static/js/app/skill-test.js:284-290 | above 2^53, taking the first place found never spoils a possible assignment |
| TimelineEnds.NormalizeEndsIff | static/js/app/skill-test.js:322-388 | while no search starts above 2^53, normalising ends if and only if, at every event that needs an id, the unused numbers above all its prefix has come to are as many as the ids of that prefix needed from there on |
| TimelineEnds.NormalizeEndsWhenRoomy | static/js/app/skill-test.js:270-291 | normalising ends for every draft whose numbers, plus one per event, stay within 2^53 |
| TimelineEnds.NormalizeWorks | static/js/app/skill-test.js:322-388 | for any draft with enough numbers, normalising ends with distinct solid ids, all times within the timeline, time order and canonical lanes, and is then a fixed point |
| TimelineNormal.NormalForm | static/js/app/skill-test.js:322-388 | whenever normalising ends, the draft has distinct solid ids, every time within the timeline, events in time order and canonical lanes, and as many events as it had object events |
| TimelineNormal.NormalIdsDistinct | static/js/app/skill-test.js:345-353 | whenever normalising ends, event ids are pairwise distinct |
| TimelineNormal.FirstIdSurvives | static/js/app/skill-test.js:331-353 | whenever normalising ends, the first object event with a given non-blank id has kept it, even when earlier events were given generated ids, and is otherwise only moved inside the timeline and to its lane |
| TimelineNormal.EventsKept | static/js/app/skill-test.js:339-386 | the result is a permutation of the images of the object events, one for one: time and lane repaired as the rules say (outside times to the nearer end; expectations to their lane, no lane to the input lane, any other lane kept), a usable id kept, and everything else untouched |
| TimelineNormal.NormalDuration | static/js/app/skill-test.js:322-331 | the duration is the draft's, else the form's, else the default, and at least 1 |
| TimelineNormal.LanesAre | static/js/app/skill-test.js:294-319 | the lanes are the default ones, in order, each with what the first raw lane of its name adds, and then every raw lane of a new name once, in order |
| TimelineNormal.TrimTakesSpace | static/js/app/skill-test.js:339-350 | trimming takes white space off both ends, and nothing else |
| TimelineNormal.NormalizeTwice | static/js/app/skill-test.js:322-388 | whenever normalising ends, doing it again changes nothing modelled |
| TimelineNormal.LanesTwice | static/js/app/skill-test.js:294-319 | lane normalisation is idempotent |
| TimelineNormal.NormalizeCanDiverge | static/js/app/skill-test.js:345-353 | two events under the id that prints 2^53 make normalising endless |
| EditorConfig.EditorIsValid | static/js/app/skill-test.js:60-75 | the editor's own lanes, prefixes and defaults meet everything the timeline results ask of a configuration |
| TimelineDrag.Editor.SetDragGroupAt | static/js/app/skill-test.js:1534-1564 | one pointer move replaces the stored draft by the specified one |
| TimelineDrag.MoveStored | static/js/app/skill-test.js:1545-1563 | one move of a stored draft keeps duration, lanes and normal form and places exactly the dragged events anew |
| TimelineDrag.DragRun | static/js/app/skill-test.js:1534-1564 | any run of moves leaves exactly what its last move alone would have left |
| TimelineDrag.DragOutcome | static/js/app/skill-test.js:1534-1590 | over any stored draft whose normalisation ends, all dragged events move by one amount: what the last pointer position asks for if that keeps them all inside, and otherwise the closest amount that does; no other event moves |
| OutputBinding.OutputsPartition | static/js/app/skill-test.js:2530-2560 | an expectation shows what its own stage reports, or else, in order, the outputs for which it is the earliest expectation at or after them |
| OutputBinding.OthersShowNone | static/js/app/skill-test.js:2530-2560 | other events, and expectations that are not on the timeline, show none |
| OutputBinding.LaneCountShows | static/js/app/skill-test.js:2485-2493 | the expectation lane counts what its expectations show, every other lane nothing |
| OutputBinding.LaneCountIs | static/js/app/skill-test.js:2485-2493 | without stage outputs that is the number of outputs no later than the last expectation |
| OutputBinding.ReviewOfDraft | static/js/app/skill-test.js:2409-2416 | the review timeline of any draft whose normalisation ends meets the assumptions of these results |
| RunPersistence.Database.DeleteEvents | backend/app/agent_harness/persistence/repository.py:73-76 | the run's event rows are gone and no other run's |
| RunPersistence.Database.AddEvents | backend/app/agent_harness/persistence/repository.py:48-58 | the run's rows become exactly the log, without ever using a taken (run, seq) |
| RunPersistence.Database.StartRun | backend/app/agent_harness/persistence/service.py:14-57 | a run starts as running with no rows of an earlier run under its id, others untouched |
| RunPersistence.Database.PersistResult | backend/app/agent_harness/persistence/service.py:59-105 | the run's record and artifact rows become the result's; event rows are replaced by the log or left alone, as asked |
| RunPersistence.EventWriter.Record | backend/app/agent_harness/events.py:26-40 | the log grows by one event with the next number; a live insert uses a free row; only a failed live insert raises |
| RunPersistence.Service.PlayCourse | backend/app/agent_harness/service.py:78-108 | an agent that records events and reacts to failing records has its whole course logged, and its ending reported |
| RunPersistence.Service.Invoke | backend/app/agent_harness/service.py:39-148 | log, result and database are exactly those foretold for the run's surroundings and mode, whether it completes or ends in an exception; other runs untouched |
| RunPersistence.CompletesIff | backend/app/agent_harness/service.py:54-146 | a run completes if and only if it started with its first event stored, and either came to a stored end or its failure could be recorded and stored |
| RunPersistence.ResultIs | backend/app/agent_harness/service.py:101-146 | a completed run has the agent's result if that was stored, and is otherwise failed without artifacts |
| RunPersistence.PlayIsPath | backend/app/agent_harness/service.py:78-108 | what the agent records is what lies on its path through its course, aside wherever a record raised |
| RunPersistence.LogShape | backend/app/agent_harness/service.py:54-146 | a started run logs its start, exactly the agent's recordings, and then its end: completed with the result's status when that was stored, failed with the result's error otherwise |
| RunPersistence.EventPerRecording | backend/app/agent_harness/events.py:26-40 | the log has one event per recording, numbered from 1 |
| RunPersistence.StoredExactlyIff | backend/app/agent_harness/service.py:181-229 | after a completed run the rows are the log numbered 1..n if and only if the mode is batch or every live insert worked |
| RunPersistence.ModesAgree | backend/app/agent_harness/service.py:203-229 | if every insert a live run came to has worked, batch mode records the same log, gives the same result and, when that completes, leaves the same database |
| RunPersistence.ModesAgreeIff | backend/app/agent_harness/service.py:181-229 | when both modes complete, they leave the same database if and only if every insert the live run came to has worked |
| RunPersistence.LiveRowCanBeMissing | backend/app/agent_harness/service.py:181-199 | a run with one failed insert that completes without its rows being the log |
| RunPersistence.RerunReplaces | backend/app/agent_harness/persistence/service.py:14-105 | whatever an earlier run did, a rerun that starts under its id leaves what it would have left without it, in any mix of modes |
| Executor.MissingIffNotCovered | backend/app/agent_harness/runners/langchain_agent_executor.py:341-369 | nothing is reported missing if and only if the log covers every required skill, resource and tool |
| Executor.Invoke | backend/app/agent_harness/runners/langchain_agent_executor.py:98-219 | the loop over rounds refines the recursive run, and its returned status is the specified one |
| Executor.OneReminderPerRound | backend/app/agent_harness/runners/langchain_agent_executor.py:144-169 | the log after k short rounds holds k reminders, numbered 1..k: for a missing artifact, or else naming exactly the interactions the log of that round does not show |
| Executor.ContractedRun | backend/app/agent_harness/runners/langchain_agent_executor.py:122-219 | at most max_continuations + 1 rounds; a stop at the first round that meets the contract; one such reminder per earlier round; success if and only if the last artifacts and the whole log meet the contract |
| Executor.UncontractedRun | backend/app/agent_harness/runners/langchain_agent_executor.py:122-219 | without a contract there is one round; its events are all that is logged, its artifacts the result's, and it succeeds exactly when it does not raise |
| ToolBudget.ToolCallBudget.CheckRepeatedValidation | backend/app/agent_harness/middlewares/tool_calls.py:140-163 | raises exactly on the second diagnosed builder failure in a row with equal diagnostics |
| ToolBudget.ToolCallBudget.CheckErrorBudget | backend/app/agent_harness/middlewares/tool_calls.py:114-138 | raises exactly on a repeated diagnosis or an exhausted budget; the counters follow the specification, and stay as they were when the diagnosis raises |
| ToolBudget.CounterIsTrailingRun | backend/app/agent_harness/middlewares/tool_calls.py:114-123 | in an unraised run a limited tool's counter is the number of errors at the end of its own results, whatever other tools did |
| ToolBudget.UnraisedIff | backend/app/agent_harness/middlewares/tool_calls.py:114-163 | a run of results goes through if and only if no tool ever reaches its limit and no two neighbouring diagnosed builder failures agree |
| ModelBudget.ModelCallMiddleware.WrapModelCall | backend/app/agent_harness/middlewares/model_events.py:52-104 | one call counts, logs and reaches the provider exactly as specified, whichever way it ends |
| ModelBudget.CallsWithinBudget | backend/app/agent_harness/middlewares/model_events.py:166-182 | over any calls the provider runs once per started event, these carry 1..k, and k never exceeds the limit |
| ModelBudget.CallsLogged | backend/app/agent_harness/middlewares/model_events.py:52-104 | over any calls the log is one piece per counted call, in order: a refusal past the limit, or a start followed by a failure, by a completion, or, when it came back late, by nothing |
| ModelBudget.TimelineCount | backend/app/agent_harness/persistence/query_service.py:102-105 | the timeline's model call count is the number of provider calls, and the number of usage events when there was none |
| ModelBudget.TokenMeter.RecordUsage | backend/app/agent_harness/middlewares/token_usage.py:30-46 | a reply is added once per message key, and only with a non-zero usage |
| ModelBudget.TokenUsageFromEvents | backend/app/agent_harness/persistence/query_service.py:395-412 | the accumulating loop returns the last total and the number of usage events |
| ModelBudget.MeterFacts | backend/app/agent_harness/middlewares/token_usage.py:30-46 | the meter's keys and total are those of the first usage of each key, and its log has one entry per such usage, in order, with the total run up so far |
| ModelBudget.TotalsReadBack | backend/app/agent_harness/persistence/query_service.py:395-412 | the totals read back are, for input, output and total tokens alike, the integer sums over the distinct messages with a usage, and their number, however often messages were presented |
| EgDiagram.NormalizeEdges | static/js/utils/eg-bpmn.js:130-160 | the loop with its set of seen keys keeps the first known edge of each key; when there is none it draws one edge from each node to the next |
| EgDiagram.EdgesKept | static/js/utils/eg-bpmn.js:136-148 | kept are exactly the known edges whose key no earlier known edge has, in order and once each |
| EgDiagram.EveryEdgeKeptIff | static/js/utils/eg-bpmn.js:136-148 | no known edge is ever lost if and only if no two readings of an arrow clash among the node ids |
| EgDiagram.ClashDrops | static/js/utils/eg-bpmn.js:142-145 | from every clash, two different known edges of which the later is dropped |
| EgDiagram.KeysCanClash | static/js/utils/eg-bpmn.js:142-145 | four node ids that clash |
| EgDiagram.BuildLayout | static/js/utils/eg-bpmn.js:185-198 | each uniquely named node gets the box of its position and kind, and no other name has one; columns 230 apart, middles on one line, small squares for the two ends |
| EgDiagram.BoxesApart | static/js/utils/eg-bpmn.js:178-198 | boxes stand apart, left to right in the order of the nodes |
| EgDiagram.RouteIsGood | static/js/utils/eg-bpmn.js:223-282 | every route is right-angled, starts and ends at the middle of a side of its own boxes and enters no box |
| EgDiagram.Clearances | static/js/utils/eg-bpmn.js:231-282 | how far each kind of route keeps from boxes: loops right of and below their box, neighbours joined halfway, others above or below the outer of their boxes by a lane that grows with the span up to the sixth step |
| EgDiagram.LanesApart | static/js/utils/eg-bpmn.js:258-282 | a connector of two to five steps never shares its height with one of another span or direction: the longer runs strictly further out |
| EgDiagram.LaneOutside | static/js/utils/eg-bpmn.js:258-282 | forward connectors over more than one step run above all boxes and backward ones below |
| EgDiagram.EdgesDrawnWell | static/js/utils/eg-bpmn.js:223-282 | the same for every edge between named nodes over the built layout |
| ByteRange.WindowInBounds | backend/app/api/routes/skills.py:391-414 | an accepted range is a non-empty window of the content |
| ByteRange.PartialIsWindow | backend/app/api/routes/skills.py:363-387 | a partial response carries exactly the bytes it announces, and their number as Content-Length |
| ByteRange.OtherResponses | backend/app/api/routes/skills.py:363-375 | without a header the whole content is sent with its length, and only then; a refusal names the length |
| ByteRange.WindowIsWanted | backend/app/api/routes/skills.py:391-414 | the window served is exactly the set of bytes asked for, a readable range is refused only when it asks for none, and anything but a range of numerals is refused |
| ByteRange.SplitIff | backend/app/api/routes/skills.py:394-399 | a header is read as a range if and only if it is `bytes` in any case, an equals sign and two texts with a dash between and no comma, with blanks anywhere around them |
| ByteRange.CrashIff | backend/app/api/routes/skills.py:401-411 | an uncaught error if and only if a well-formed range holds a superscript or a numeral of more than 4300 digits |
| ByteRange.SuperscriptCrashes | backend/app/api/routes/skills.py:408-410 | a header with a superscript two ends in that error |
| ByteRange.PrintedRange | backend/app/api/routes/skills.py:391-414 | `bytes=a-b` comes back as (a, min(b, size - 1)), or as unsatisfiable exactly when a is past the end or above b |
| ByteRange.PrintedOpenRange | backend/app/api/routes/skills.py:400-414 | `bytes=a-` reaches the end; `bytes=-n` is the last n bytes, all of them when n is too large, and none only for n = 0 |
| ByteRange.PiecesConcatenate | backend/app/api/routes/skills.py:363-387 | consecutive windows, asked for in any accepted spelling, put the content back together |
| ByteRange.PrintedPiecesConcatenate | backend/app/api/routes/skills.py:363-387 | in particular for a client that prints `bytes=a-b` |
| Decimal.ReadPrint | backend/app/api/routes/skills.py:404-410 | reading a printed number gives it back |

## Left out

- Terminal entries without a finite sequence number, which `mergeBySeq` skips; several runs at once; parts, media, object URLs and attachments of an event.
- Liveness: reconcile requests with one key are shared in flight, so only what a reply achieves is stated.
- The separate replay page (`loadReplayDetail`), trace events, bindings, and the summary check after a socket opens.
- TaskStatus.HeldIsGreatest: `updated_at` is compared as ASCII text; JavaScript's UTF-16 order of other text is not modelled.
- DanglingToolCalls: message content, ids and metadata beyond what the repair reads; a call named "unknown" and a call without a name get the same text in the code and different constructors here.
- RepositoryCommit: base64 and UTF-8 encoding, delays between attempts, the response body of an error, and the other gateway calls.
- RepositoryCommit.Gateway.CommitRepositoryFiles: of a call that meets faults other than a lost commit reply it says that its effect is sound, not which faults the retried reads overcome.
- Timeline: fields that no result depends on travel as an opaque `rest`; part ids and expectation texts, for which the code promises no idempotence; non-numeric times; rounding of times; drafts that are not objects.
- TimelineEnds.NormalizeEndsIff: the count is stated where no search starts above 2^53; `TimelinePlaces.NormalizeEndsExactly` covers every draft.
- TimelineIds.NextEventId: an endless search is the result `None`, since a method must end; doubles print by a parameter.
- TimelineDrag.Editor.SetDragGroupAt: the conversion of a pointer event to a time is a parameter; a normalisation that never ends leaves the draft as it was.
- RunPersistence: runs without a database session, `events.jsonl` (opened for append across reruns), sandboxes, memory and artifact collection; concurrent calls of `record` and the asynchronous variants; an artifact is opaque, and payloads are short texts.
- RunPersistence.Service.Invoke: writing the output file and persisting the result fail or succeed together; an agent's course is finite.
- Executor.Invoke: deadlines, hooks and provider errors are one nondeterministic raise of a round; sorted order and wording of the missing lists are not modelled.
- ToolBudget.UnraisedIff: asks that no limit is set for the empty tool name, whose counter the code never resets.
- ModelBudget.TotalsReadBack: asks that a re-presented message keeps its usage; numbers are read back as recorded.
- EgDiagram: duplicate node ids, reading the endpoints of raw edges, XML ids and the XML text.
- ByteRange: headers that are not Latin-1, other response headers, and reading the content from the object store.
- Domain services (runtime kernel, job queue, compiler), HTTP clients, telemetry, the database schema and the rest of the user interface.
