# Shared state in the fleet platform: models and proofs

This project models the places where the platform keeps state that several parties change,
and proves what those places are for. A database mixin is a class whose fields are finite
maps; every UPDATE, INSERT or DELETE is one atomic step, because each statement commits on
its own (adapters/storage/pg_adapter.py:732). Code that runs concurrently is a state machine
whose steps go from one await, or one statement, to the next, and the theorems are about
every run. Each class method is proved equal to a specification function, and the theorems
are about those functions.

| module | what it models |
|---|---|
| `Common` | options, distinct rows and substrings, used by the others |
| `AlertTables`, `AlertQuery`, `AlertMeaning`, `AlertLists`, `AlertPaging`, `AlertGroups`, `TextSearch` | the alert board's filter compiler with an evaluator for the SQL it emits, and the list, count, page, group and seen queries built on it |
| `AlertDeliveries`, `AlertHistory` | the delivery rows and the consolidated history rows of an alert |
| `SingleFlight`, `SchedulerLock` | the in-process future registry, and the leader lock of the scheduler |
| `Proposals` | the claim protocol of action proposals: approve, edit, decline, undo, prune, crash |
| `LegacyPaths`, `MediaRelocation`, `MediaRows`, `ApplicationRelocation` | the script that moves files on disk and repoints the rows that name them, and what its dry run is worth |
| `KeyRotation` | re-encrypting stored secrets in one transaction |
| `TenantRegistry`, `ScanGate`, `Instream`, `ChatHistory` | bounded structures: LRU registry, scan rate gate, chunk framing, capped chat history |
| `AccountLifecycle` | suspension, deletion, set-up gate and purge sweep |
| `ScanRescan`, `DraftReminders`, `AlertTriggers` | the rescan loop, the reminder job, optimistic edits of a trigger |

## Findings

Where a promise is false of the code, the code is kept as it is and the exact condition is
proved.

- The vehicle filter of the alert board is not escaped, so `_` and `%` in it are wildcards.
- The filter compiler's description says that the date window drops old alerts even when they
  keep firing; the code bounds resolved rows only, and the model follows the code.
- A scoped viewer's grouped row counts their own vehicles, but the member id list behind it is
  not scoped.
- `get_earliest_human_ack` says it must be read before auto-resolve; that is not needed when
  nothing lands between the two statements of auto-resolve, and a human acknowledgement that
  does land there is overwritten. The nightly sweep closes rows by listed ids in the same way.
- A cleared history row that fires again stays cleared.
- The actor of a history row is written once exactly when no update by row id lands on an
  acknowledged row; two readers of one open row are enough to break it.
- The scan gate exceeds its rate exactly when a call finds more than `rate` stamps kept and the
  one `rate` places back under a second old, which takes equal clock readings.
- The scheduler lock has no owner token; the 90-second bounds are needed, and exact.
- Approval reads the staged rows before it claims, so an edit in between is stored but not run.
- A worker that dies after its claim leaves its proposal executing, or undoing, until the sweep.
- The relocation leaves a row behind exactly when the row that moves its file has another stored
  path or comes later: a file stored under two path forms, or a row skipped for a taken target
  before one of another company with the same path. For applications the signature column is
  left behind whenever its file moves.
- A relocation dry run does not always count what the real run does: it does exactly when no
  row's file is also stored, under another path form, by an earlier row that is the first with
  room for it.
- Columns that are encrypted but not listed in the rotation script become unreadable, and a
  secret saved while the rotation runs is overwritten or left under the old key.
- Dropping empty threads between the statements of a save orphans the exchange; so does a
  clear around its insert, and what is left in the end has an exact condition.
- The rule that no two accounts share a name is looked up in one statement and relied on in
  another: it holds exactly when nobody takes the name in between.
- An owner lifts a suspension by requesting and cancelling a deletion. The operator's switch
  writes the flag without looking, so it can turn on an account that is being deleted.
- A purge sweep does not look again before it purges: it takes an account that is no longer due
  exactly when a cancel came after the listing, even if a new deletion was asked for since.
- A rescan that stops short shows up to ten targets fewer than it counted, findings included; a
  job whose last write fails stays running.
- A reminder is mailed before it is stamped. A lost stamp lets cap and cadence be exceeded,
  under exact conditions; so does, for the cadence, a nudge by hand in mid-batch.

## Assumptions

- Redis is up; the branches that fail open are not taken.
- Stored ISO timestamps compare as text the way their instants do (section 5.1 of RFC 3339),
  so times are integers; the rate gate uses reals.
- Ids from a sequence and uuids are never reused; key columns are unique and `status`,
  `vehicle_id` and `last_detail` are not NULL.
- Outside `AccountLifecycle` no account is purged in mid-run. `update_account` is never called
  with a name, as nothing in the repository does.
- No caller of `get_or_compute` is cancelled and no fetch calls it again; no two coroutines
  are inside `TenantRegistry.get` for one account at once.
- An executor or undo recipe takes effect exactly when it returns, in one transaction of its
  own.
- The cipher is authenticated: a token opens under its own key only.

## Model

| member | source | states |
|---|---|---|
| `AlertQuery.Compile` | adapters/storage/alerts.py:1220-1400 | The compiler that appends clauses and positional parameters yields, for every filter, one fixed fragment; every clause is followed by exactly its own parameters |
| `AlertQuery.InClause` | adapters/storage/alerts.py:1358-1378 | The comma-list helper appends one equality, one IN list, or a clause that is never true when every piece is blank |
| `AlertQuery.CompiledMeansWanted` | adapters/storage/alerts.py:1220-1400 | For every filter, clock and scope, with or without an alias and inside any join, the compiled clauses evaluated with their positional parameters select exactly the rows the filter means |
| `AlertQuery.SelectsPlus` | adapters/storage/alerts.py:1236-1400 | Appending one clause list and its parameters to another selects the conjunction: no parameter can slip to a neighbouring clause |
| `AlertMeaning.PersonalTabs` | adapters/storage/alerts.py:1290-1313 | Wanted told in the fields of a row: the tabs of a person are what they (or nobody) have not seen, what they work on, and everything, whatever the status |
| `AlertMeaning.StateTabs` | adapters/storage/alerts.py:1314-1318 | Any other view leaves the choice to the acknowledgement state: open rows, closed rows, or both |
| `AlertMeaning.WindowInSeconds` | adapters/storage/alerts.py:1335-1357 | A window of d days bounds closed rows by first fire + d * 86400 seconds against now, open rows not at all, and zero days is no window |
| `AlertMeaning.LongerWindowKeeps` | adapters/storage/alerts.py:1335-1357 | A longer window never loses a row |
| `AlertMeaning.StripIs` | adapters/storage/alerts.py:1358-1359 | Stripping gives a non-empty text exactly when that has no blank at its ends and stands between blanks |
| `AlertMeaning.SplitJoined` | adapters/storage/alerts.py:1358-1359 | Splitting at commas undoes joining with commas |
| `AlertMeaning.ChosenIff` | adapters/storage/alerts.py:1358-1378 | Of pieces joined with commas a value is chosen exactly when it is one of the pieces without its surrounding blanks, and not empty |
| `AlertMeaning.EmptyChoiceIsNone` | adapters/storage/alerts.py:1375-1382 | An empty choice is no choice, in each of the four columns |
| `AlertMeaning.RestInColumns` | adapters/storage/alerts.py:1375-1398 | Each other filter asks about its own column; the search box is found in the vehicle name or the location, letter by letter in any case |
| `AlertMeaning.PlainVehicleIsFound` | adapters/storage/alerts.py:1379-1381 | A vehicle text without wildcards is found anywhere in the name, in any case |
| `AlertMeaning.TabSql` | adapters/storage/alerts.py:1284-1318 | The tab's clause, written out: the ledger's row is correlated with the outer row under its alias or the name of the table, and the person is its parameter |
| `AlertMeaning.WindowSql` | adapters/storage/alerts.py:1335-1357 | The clause of the window for each view and state, with now - d * 86400 as its parameter |
| `AlertMeaning.ColumnSql` | adapters/storage/alerts.py:1358-1378 | A multi-select column becomes one equality, one IN with a placeholder for each choice, or a clause that is never true, and its parameters are exactly the choices |
| `AlertMeaning.TextSql` | adapters/storage/alerts.py:1379-1398 | The vehicle is searched for between percent signs as typed, the search box escaped and twice |
| `AlertLists.ListLengthIsCount` | adapters/storage/alerts.py:1402-1504 | The unpaged list, compiled with an alias and joined to users, has exactly as many rows as the count compiled without either |
| `AlertLists.AllTabIsDisjointUnion` | adapters/storage/alerts.py:1290-1357 | For every date window and other filter the 'all' tab is the disjoint union of 'active' and 'acknowledged', so the counts add up |
| `AlertLists.OpenWorkIsNeverHiddenByAge` | adapters/storage/alerts.py:1319-1357 | An open alert is listed with a date window exactly as it is without one |
| `AlertLists.AlertStore.CountFiltered` | adapters/storage/alerts.py:1467-1504 | Running the compiled count query returns the number of wanted rows |
| `AlertLists.AlertStore.MarkFilteredAlertsSeen` | adapters/storage/alerts.py:745-785 | Inserts one ledger row for each wanted alert this person has not seen, and returns that number |
| `AlertLists.MarkingNewDrainsIt` | adapters/storage/alerts.py:745-785 | Marking the 'new' view seen inserts exactly its count, drives that count to zero and does nothing the second time |
| `AlertLists.MarkingLeavesOtherTabs` | adapters/storage/alerts.py:745-785 | It changes no other viewer's counts and no count that does not ask what this person has seen |
| `AlertLists.MarksInFields` | adapters/storage/alerts.py:745-785 | Row by row of the ledger: what is added is for this account and person, for a wanted alert that had no such row, and nothing is taken away |
| `AlertPaging.BeforeIsStrict` | adapters/storage/alerts.py:1178-1217 | Every ORDER BY the code can build is a strict order |
| `AlertPaging.BeforeIsTotal` | adapters/storage/alerts.py:1178-1217 | and, thanks to the id at its end, a total one |
| `AlertPaging.ListingIsUnique` | adapters/storage/alerts.py:1178-1217 | so the database may return the filtered rows in one arrangement only |
| `AlertPaging.ListingExists` | adapters/storage/alerts.py:1178-1217 | and in at least one: every finite set of rows can be listed in that order |
| `AlertPaging.PageIsDetermined` | adapters/storage/alerts.py:1402-1465 | Each page query, for every sort name, direction, page size and offset, has one possible answer |
| `AlertPaging.PagingShowsEachRowOnce` | adapters/storage/alerts.py:1402-1465 | For any sort column, direction and page size, the pages, fetched one query at a time, show every filtered row exactly once |
| `AlertPaging.WithoutTieBreakPagesRepeat` | adapters/storage/alerts.py:1178-1217 | Without the id tie-break two tied rows may show one of them on both pages |
| `AlertPaging.DefaultIsTriageOrder` | adapters/storage/alerts.py:1205-1212 | In the default listing no row stands before a more severe one, within a severity last_seen never rises, and ties have the newest first |
| `AlertPaging.NamedColumns` | adapters/storage/alerts.py:1194-1217 | Each named column sorts by its own field, up for asc in any case and down otherwise; severity by rank, names in any case, and a missing time as later than any |
| `AlertPaging.TiesAreNewestFirst` | adapters/storage/alerts.py:1213-1217 | Rows that tie on the column have the newest first, up or down |
| `AlertPaging.TextLessIs` | adapters/storage/alerts.py:1194-1204 | Text sorts as in a dictionary |
| `AlertGroups.GroupedCountsAreMembers` | adapters/storage/alerts.py:892-994 | A grouped row exists exactly when it has members; its deliveries and unacked are the sizes of the member id lists, and its severity is the worst member's |
| `AlertGroups.GroupsPartitionTheWindow` | adapters/storage/alerts.py:892-994 | Each row of the window is a member of its own group, of no other, and that group is on the board |
| `AlertGroups.ScopedCountAgreesIff` | adapters/storage/alerts.py:892-994 | For a scoped caller the shown count equals the member list exactly when every member is inside the scope; otherwise the unscoped member list is longer |
| `AlertGroups.MembersInFields` | adapters/storage/alerts.py:944-994 | The members of a group: rows of the account, type, vehicle and first segment of the detail, last seen at the cutoff or later, on request without an acknowledgement |
| `AlertGroups.WindowInFields` | adapters/storage/alerts.py:892-942 | The rows a caller sees: by account, time and, with a scope, the name of the vehicle in any case; blank names admit nothing |
| `AlertGroups.BoardCountsWhatIsSeen` | adapters/storage/alerts.py:892-942 | For any caller a group counts the rows they see of it, those without an acknowledgement, the newest, and shows the worst severity among them |
| `TextSearch.EscapeIsCharwise` | adapters/storage/alerts.py:1382-1388 | The three sequential replaces equal escaping each character on its own, for all strings |
| `TextSearch.EscapedSearchIsContains` | adapters/storage/alerts.py:1382-1398 | '%' + escaped + '%' under LIKE with ESCAPE '\' matches a string exactly when the search text is a contiguous substring (the like predicate, section 8.5 of ISO/IEC 9075-2), for all strings |
| `TextSearch.UnescapedFilterIsContainsIffPlain` | adapters/storage/alerts.py:1379-1381 | The vehicle filter is not escaped: as a filter it means substring for every text exactly when the needle has no wildcard or escape character |
| `TextSearch.WildcardsMean` | adapters/storage/alerts.py:1379-1398 | An underscore stands for one character, a percent sign for any number, and a pattern ending in a lone backslash selects nothing |
| `AlertDeliveries.DeliveryTable.CreateAlertAck` | adapters/storage/alerts.py:50-82 | Adds one open, un-acknowledged delivery under a new id |
| `AlertDeliveries.DeliveryTable.CreateInfoAlertAck` | adapters/storage/alerts.py:102-130 | Supersedes the recipient's earlier info card of the triple and adds the new one |
| `AlertDeliveries.DeliveryTable.SupersedeAlertAcks` | adapters/storage/alerts.py:221-268 | Supersedes exactly the listed rows, within one account when one is given, and returns how many |
| `AlertDeliveries.DeliveryTable.Cascade` | adapters/storage/alerts.py:270-341 | Acknowledges every un-acknowledged delivery of the triple and touches no other |
| `AlertDeliveries.DeliveryTable.AutoResolve` | adapters/storage/alerts.py:1045-1072 | Lists the triple's open deliveries and acknowledges the listed ids by the system |
| `AlertDeliveries.DeliveryTable.CloseForRetiredVehicle` | adapters/storage/alerts.py:1099-1137 | Acknowledges the retired vehicle's open deliveries by the system |
| `AlertDeliveries.DeliveryTable.GetEarliestHumanAck` | adapters/storage/alerts.py:681-716 | Returns an earliest acknowledgement by a person, and none exactly when there is none |
| `AlertDeliveries.RunIsSound` | adapters/storage/alerts.py:221-341 | Over every run, status 'active' implies no acknowledgement, and acknowledger and time come together |
| `AlertDeliveries.AckIsFinal` | adapters/storage/alerts.py:270-341 | Over every run whose auto-resolves act on a listing that is not stale, acknowledger and time never change and the row is never open again |
| `AlertDeliveries.StepKeepsAcksIff` | adapters/storage/alerts.py:1045-1072 | No step rewrites an acknowledgement but the closing by listed ids of auto-resolve and of the nightly sweep (capabilities/alerting/cleanup.py:124-155), and that one exactly when a listed row carries another acknowledgement by then |
| `AlertDeliveries.ResolveKeepsHumanAcks` | adapters/storage/alerts.py:1045-1072 | Resolving right after listing changes no human acknowledgement of any triple |
| `AlertDeliveries.RetireKeepsHumanAcks` | adapters/storage/alerts.py:1099-1137 | nor does retiring a vehicle |
| `AlertDeliveries.ResolveLosesLateAcksIff` | capabilities/alerting/cleanup.py:124-155 | The human acknowledgements of a triple survive a closing by listed ids, of a sweep or an auto-resolve, exactly when nobody had acknowledged a listed row of the triple by the time of the update |
| `AlertDeliveries.LateAckIsLost` | adapters/storage/alerts.py:1045-1072 | A run in which the acknowledgement of a person is overwritten by the system |
| `AlertDeliveries.CascadeLeavesNothingUnacked` | adapters/storage/alerts.py:270-341 | Right after an acknowledgement the triple has no delivery waiting |
| `AlertDeliveries.CascadeInFields` | adapters/storage/alerts.py:318-325 | Field by field: a delivery of another account, type or vehicle, or one acknowledged before, is unchanged; every other of the triple gets this person, this time and the status |
| `AlertDeliveries.ClosingsInFields` | adapters/storage/alerts.py:1045-1137 | The same for the closings of the system: by listed ids, of a retired vehicle, and what a listing holds |
| `AlertDeliveries.SupersedesInFields` | adapters/storage/alerts.py:102-268 | Superseding changes the status of exactly the selected rows and nothing else of them |
| `AlertDeliveries.SendsInFields` | adapters/storage/alerts.py:50-130 | A new delivery is open, or an info card, for its triple and recipient, without an acknowledgement |
| `AlertDeliveries.HumanAcksInFields` | adapters/storage/alerts.py:681-716 | The acknowledgements of people are those of the triple with a positive id and a time |
| `AlertHistory.Board.UpsertAlertHistory` | adapters/storage/alerts.py:600-679 | The two statements of a fire; any spelling of critical leaves the row critical, and the stored severity is the worse of the row's and of what the raw one means |
| `AlertHistory.NormaliseMeans` | adapters/storage/alerts.py:633-635 | For every string: critical exactly for its spellings in any case, info exactly for its own, and warning for all else, the empty string included |
| `AlertHistory.InsertInFields` | adapters/storage/alerts.py:636-648 | The first statement adds an open row with a count of zero when the key has none, and otherwise nothing |
| `AlertHistory.BumpInFields` | adapters/storage/alerts.py:649-672 | The second counts on the row of the key and refreshes name, time, detail, severity and a non-empty location; status, first time and actor stay |
| `AlertHistory.Board.AcknowledgeAlert` | adapters/storage/alerts.py:270-341 | Closes the triple's open history rows in the name of the person |
| `AlertHistory.Board.AcknowledgeAlertHistory` | adapters/storage/alerts.py:343-430 | Acknowledges one open row inside the scope of the caller, which the update repeats, cascades to its deliveries, and says whether it did |
| `AlertHistory.Board.ClearAlertHistory` | adapters/storage/alerts.py:1074-1097 | Clears the triple's open rows |
| `AlertHistory.Board.CloseAlertsForRetiredVehicle` | adapters/storage/alerts.py:1099-1137 | Clears the vehicle's open rows |
| `AlertHistory.ClearsInFields` | adapters/storage/alerts.py:1074-1137 | Clearing touches the status of open rows of the triple, or the vehicle, only; the nightly sweep (capabilities/alerting/cleanup.py:157-181) takes stale warnings and infos, and no events or maintenance |
| `AlertHistory.AcksInFields` | adapters/storage/alerts.py:332-421 | Acknowledging by triple closes its open rows, by id that row inside the scope; both write the person and the time |
| `AlertHistory.AdmitsIff` | adapters/storage/alerts.py:378-400 | A row with a vehicle id is admitted by the ids when there are any, every other row by the name in any case; blank entries count for nothing |
| `AlertHistory.HistoryRowSummarisesFires` | adapters/storage/alerts.py:600-679 | Over any interleaving, each fired key has exactly one row, whose count is the number of fires, severity the maximum fired, first_seen the first fire and location the latest non-empty one |
| `AlertHistory.RowIsAsSevereAsItsWorstFire` | adapters/storage/alerts.py:600-679 | Over every run a row is critical exactly when some fire of its key was, else a warning exactly when some fire was, else info |
| `AlertHistory.ClosedStaysClosed` | adapters/storage/alerts.py:600-679 | No statement reopens a row |
| `AlertHistory.RefireStaysCleared` | adapters/storage/alerts.py:651-679 | A cleared row that fires again is counted and refreshed and stays cleared |
| `AlertHistory.AcknowledgedTripleIsClosed` | adapters/storage/alerts.py:270-341 | Right after acknowledge_alert the triple has no un-acknowledged delivery and no open history row, and other triples are untouched |
| `AlertHistory.StepKeepsStampsIff` | adapters/storage/alerts.py:343-430 | Every statement keeps actor and time of every acknowledged row, but exactly the update of a single row by its id on one that another user, or another time, acknowledged |
| `AlertHistory.ActorsAreWrittenOnceIff` | adapters/storage/alerts.py:270-430 | Over a whole run of fires, acknowledgements, clears, sweeps and retirements the actor of every row is written once exactly when no such update lands on an acknowledged row |
| `AlertHistory.SecondReaderOverwritesActor` | adapters/storage/alerts.py:343-430 | One such run: two requests that both read the row as open leave the second person's name on it |
| `SingleFlight.StepKeepsInv` | infra/cache.py:627-717 | Every step from await to await keeps the registry, the futures and the lock in step |
| `SingleFlight.OneOwnerPerKey` | infra/cache.py:670-717 | In every reachable state a key has at most one caller on the cold path |
| `SingleFlight.FutureResolvesOnce` | infra/cache.py:686-717 | A resolved future is never resolved again |
| `SingleFlight.CollapsedCallersAgree` | infra/cache.py:671-683 | Every collapsed caller returns the outcome of the one owner it waited for, who was registered for the same key |
| `SingleFlight.AnswersAreAccountedFor` | infra/cache.py:627-717 | Over every run every caller is where the answers it got bring it: the value returned is the one fetch() or the cache gave, fetch() is entered once at most, with the lock or after all polls, and the lock is released exactly when taken |
| `SingleFlight.CachedValueIsAHit` | infra/cache.py:654-667 | A caller that returned from the cache made one move and was answered that very value |
| `SingleFlight.SharedOutcomeIsGot` | infra/cache.py:671-710 | Whatever a caller on the cold path returns, the caller it names got: there is the move in which fetch() returned or raised it, or the cache had it |
| `SingleFlight.LockIsExclusive` | infra/cache.py:671-683 | While a waiter holds the lock nobody looks, registers or pops; and a waiter returns what the future of its leader says |
| `SingleFlight.LooksAndRegisters` | infra/cache.py:671-683 | A look waits for the caller registered for the key, with the lock held only at the second look, or else registers |
| `SingleFlight.PoppedByItsOwner` | infra/cache.py:711-717 | An entry leaves the registry only in a step of the caller it names |
| `SingleFlight.SomeoneCanMove` | infra/cache.py:671-717 | Some caller can always move until all have returned, although a waiter may hold the registry lock while it awaits |
| `SingleFlight.StepShrinks` | infra/cache.py:627-717 | Every step uses up a measure known in advance |
| `SingleFlight.EveryCallerReturns` | infra/cache.py:627-717 | Every run is finite, within a bound in the number of callers and polls, and one that cannot go on has answered every caller |
| `SingleFlight.RegistryEmptiesOut` | infra/cache.py:711-717 | When all have returned no entry is left and the lock is free |
| `SchedulerLock.LockKey.AcquireLock` | infra/cache.py:488-503 | SET NX EX: taken exactly when absent or expired |
| `SchedulerLock.LockKey.HeartbeatLock` | infra/cache.py:505-515 | Refreshes the key exactly while it lives, whoever set it |
| `SchedulerLock.LockKey.ReleaseLock` | infra/cache.py:517-525 | Deletes whatever is there |
| `SchedulerLock.TriesInFields` | run.py:165-184 | A try takes the key for 90 seconds when there is none or its time is up, and otherwise waits |
| `SchedulerLock.BeatsInFields` | run.py:221-234 | A heartbeat leaves the key with 90 seconds, whoever set it and even if it was gone |
| `SchedulerLock.EndsInFields` | run.py:300-348 | Stopping ends the heartbeat, releasing deletes whatever key is there, a crash leaves it |
| `SchedulerLock.AtMostOneOwner` | run.py:165-234 | In every run with heartbeats under 90 seconds apart and drains under 90 seconds from the last one, at most one instance owns the scheduler |
| `SchedulerLock.ReleaseDeletesOwnLock` | run.py:300-348 | A shutdown deletes its own lock, never a successor's |
| `SchedulerLock.HeartbeatFindsOwnLock` | run.py:221-234 | The re-acquire branch of the heartbeat is never needed |
| `SchedulerLock.TakeoverIsBounded` | run.py:173-184 | While an instance waits, the scheduler is without an owner at most 15 seconds after the key falls free, so at most 90 + 15 after a crashed holder's last refresh |
| `SchedulerLock.FreeKeyIsTaken` | run.py:182-184 | The waiter's try once the key is free succeeds |
| `SchedulerLock.SecondOwnerIffLate` | run.py:173-234 | Beside an owner a try makes a second one exactly when the owner has gone 90 seconds without a refresh |
| `SchedulerLock.LateOwnerBreaksSafety` | run.py:300-348 | and then the first owner's shutdown deletes the second one's lock |
| `Proposals.ProposalTable.Create` | adapters/storage/ai_actions.py:51-82 | Adds one pending proposal |
| `Proposals.ProposalTable.UpdateStagedPayload` | adapters/storage/ai_actions.py:128-154 | Replaces the staged rows, and the summary if one is given, exactly while the proposal is pending and theirs |
| `Proposals.ProposalTable.Claim` | adapters/storage/ai_actions.py:207-227 | Claims exactly a pending, unexpired proposal of theirs |
| `Proposals.ProposalTable.Finalize` | adapters/storage/ai_actions.py:229-249 | Overwrites status and result without looking at the status |
| `Proposals.ProposalTable.Decline` | adapters/storage/ai_actions.py:251-265 | Declines exactly a pending proposal of theirs |
| `Proposals.ProposalTable.ClaimUndo` | adapters/storage/ai_actions.py:156-170 | Claims exactly a consumed proposal of the account for undo |
| `Proposals.ProposalTable.FinalizeUndo` | adapters/storage/ai_actions.py:172-205 | Closes exactly an undo under way: undone with its merged outcome, or back to consumed |
| `Proposals.ProposalTable.Prune` | adapters/storage/ai_actions.py:267-279 | Deletes exactly the proposals created before the cutoff |
| `Proposals.OpensOnTheirs` | capabilities/ai/actions.py:111-168 | An approval opens on a pending row of the one who approves and takes note of its rows |
| `Proposals.ClaimTakesIff` | adapters/storage/ai_actions.py:207-227 | A claim succeeds exactly on a row that is there, theirs, pending and not expired; then it changes the status alone and the executor gets the rows read; a refused claim changes nothing |
| `Proposals.CloseWrites` | adapters/storage/ai_actions.py:229-249 | Over every run a finished executor leaves consumed with its change-set, or failed with nothing |
| `Proposals.UndoTakesIff` | adapters/storage/ai_actions.py:156-170 | An undo is claimed exactly on a consumed row of the account |
| `Proposals.CloseUndoWrites` | adapters/storage/ai_actions.py:172-205 | Over every run a finished recipe leaves undone, by the one who asked, with both outcomes, or consumed as before |
| `Proposals.ExpiredIsNeverEntered` | adapters/storage/ai_actions.py:207-227 | Over every run whose claims come at or after the expiry of a proposal, its executor is never entered |
| `Proposals.StatementsInFields` | adapters/storage/ai_actions.py:51-279 | Proposing, editing, declining and sweeping, field by field; none touches a request, or a log but the new one |
| `Proposals.ExecutorsInFields` | capabilities/ai/actions.py:196-218 | An executor that returns is noted with its change-set, one that raises is not; the request finalises either way |
| `Proposals.UndosInFields` | capabilities/ai/actions.py:294-345 | An undo opens on a consumed row of the account with a change-set, which the recipe gets |
| `Proposals.StepKeepsInv` | capabilities/ai/actions.py:111-232 | Every step of every request, edit, decline, sweep and crash keeps the protocol invariant: one holder per proposal, and row and log in agreement |
| `Proposals.ExecutesAtMostOnce` | adapters/storage/ai_actions.py:207-249 | Over every run of any number of requests a proposal's executor is entered at most once, never for a pending or declined one, and successes less undos are 0 or 1: 1 when consumed, 0 when failed or undone |
| `Proposals.FinalizeMeetsExecuting` | adapters/storage/ai_actions.py:229-249 | In every reachable state the unguarded UPDATE meets an 'executing' row of the same owner, or a pruned one |
| `Proposals.RecipeGetsTheManifest` | capabilities/ai/actions.py:294-345 | An undo recipe runs on exactly what the executor returned, on an effect that is still in place |
| `Proposals.ClosedRowsStay` | adapters/storage/ai_actions.py:128-154 | Over every run the staged rows are frozen once the proposal leaves pending, and declined, failed and undone rows never change at all |
| `Proposals.LosesIffHolderCrashes` | capabilities/ai/actions.py:196-345 | A step loses a proposal exactly when it is the crash of the request that holds it, approving or undoing |
| `Proposals.UnheldIffLost` | capabilities/ai/actions.py:196-345 | In every reachable state an executing or undoing proposal has no holder exactly when it was lost so |
| `Proposals.CrashAbandons` | capabilities/ai/actions.py:196-345 | A request that dies in or after its executor or undo recipe, before it finalises, leaves a proposal that nobody holds |
| `Proposals.AbandonedUntilSwept` | adapters/storage/ai_actions.py:156-279 | and such a row stays as it is, 'executing' or 'undoing', over every run until it is pruned |
| `Proposals.ApprovedRowsRunIff` | capabilities/ai/actions.py:129-203 | The executor gets the rows that the claim freezes exactly when the edits that landed between the read and the claim left the rows as they were read |
| `Proposals.StaleRowsCanRun` | capabilities/ai/actions.py:129-203 | A run in which the stored rows say one thing and the executor writes another |
| `LegacyPaths.FindFile` | scripts/relocate_userdata_layout.py:81-98 | Finds a stored path among its candidates, and nothing exactly when none is a file |
| `LegacyPaths.FileStore.Move` | scripts/relocate_userdata_layout.py:106-120 | Moves the file unless the name is taken; a dry run only answers |
| `LegacyPaths.MoveConserves` | scripts/relocate_userdata_layout.py:106-120 | A move keeps every content as often as it was on the disk |
| `LegacyPaths.CandidatesKeep` | scripts/relocate_userdata_layout.py:81-91 | Every place where a legacy path is looked for is still in the legacy bucket |
| `LegacyPaths.FindsTheFirst` | scripts/relocate_userdata_layout.py:81-98 | A path is looked for under the root and, if it starts with data/ but not data/userdata/, in the directory of the account; the first that is a file is found |
| `LegacyPaths.BasenameIs` | scripts/relocate_userdata_layout.py:288-288 | The name of a file is what stands behind the last slash |
| `MediaRelocation.Relocator.Target` | scripts/relocate_userdata_layout.py:269-296 | Decides one row through the remap, the file search, the second form and the move |
| `MediaRelocation.Relocator.RelocateVehicleMedia` | scripts/relocate_userdata_layout.py:247-302 | The loop over the rows leaves the disk, the rows and both counters of the row-by-row specification |
| `MediaRelocation.DecidesInFields` | scripts/relocate_userdata_layout.py:269-296 | Case by case: the remap of the stored path, no file, the remap of the file, a taken target, or the move; a dry run decides the same and moves nothing |
| `MediaRelocation.VisitsInFields` | scripts/relocate_userdata_layout.py:260-302 | Only rows with the legacy bucket in their path are decided upon; a decision counts as updated, and in a real run gives the row its new path |
| `MediaRelocation.UpdatedIsRepaired` | scripts/relocate_userdata_layout.py:297-302 | A real run reports as repointed exactly the rows whose path it changed |
| `MediaRelocation.ContentIsConserved` | scripts/relocate_userdata_layout.py:247-302 | For any rows and any disk, each content is on the disk as often after the run as before |
| `MediaRelocation.DestIsNotLegacy` | scripts/relocate_userdata_layout.py:288-288 | A destination is never inside the legacy bucket, if no folder on its way ends with the name of the bucket |
| `MediaRelocation.RunKeepsInv` | scripts/relocate_userdata_layout.py:247-302 | For any table and disk, two stored forms of one file included: after any number of rows no file that was there is overwritten, only legacy files are gone, every remap leads to a file that is there, and a path is kept or repointed as the remap says |
| `MediaRows.MovedFileIsAt` | scripts/relocate_userdata_layout.py:269-291 | A file that a row moves is at that row's target with its bytes from then on, and the remap of the row's stored path leads there |
| `MediaRows.RowLeadsIff` | scripts/relocate_userdata_layout.py:247-302 | For any table and disk: the bytes a row named are never lost; if nothing moves the file the row still leads to it, and if row m moves it the row leads to its new place exactly when row m has the same stored path and stands at or before the row |
| `MediaRows.MoverIsFirst` | scripts/relocate_userdata_layout.py:269-291 | When different files have different targets, the row that moves a file is the first that names it and whose target is free on the disk at the start |
| `MediaRows.RowLeadsByStartIff` | scripts/relocate_userdata_layout.py:247-302 | So, aliases included, a row still leads to its file exactly when the first row with room for it, if any, has the same stored path and stands at or before it: a condition on the table and the disk before the run |
| `MediaRows.SecondFormIsLost` | scripts/relocate_userdata_layout.py:270-282 | In any table, a row that stores another form of a path than the row that moves the file is left behind |
| `MediaRows.RowFollowsIff` | scripts/relocate_userdata_layout.py:260-302 | Without aliases a row leads to its file exactly when no later row was the first to find its target free (the remap promises that it always does) |
| `MediaRows.OneFolderKeepsTheRow` | scripts/relocate_userdata_layout.py:247-302 | If the rows that may mean a file share one stored path and one company folder, each still resolves to its bytes, whatever the rest of the table and even where targets clash |
| `MediaRows.BooksAgreeIff` | scripts/relocate_userdata_layout.py:109-113 | For any table and disk a dry run keeps the books of the real run, remap and counters, after every row exactly when the real run meets no row whose file, or whose target, an earlier row changed in a way the dry run cannot see |
| `MediaRows.SurprisedByStartIff` | scripts/relocate_userdata_layout.py:269-296 | When different files have different targets, that row is told by the table and the disk before the run: an earlier row with another stored path is the first with room for its file, and is of the same account or leaves the row room too |
| `MediaRows.DryRunPredictsIff` | scripts/relocate_userdata_layout.py:109-113 | So a dry run counts after every row what the real run does exactly when the table and the disk have no such row |
| `MediaRows.ADryRunMiscounts` | scripts/relocate_userdata_layout.py:269-296 | One file under two path forms: the dry run reports two rows repointed, the real run repoints one |
| `MediaRows.DryRunPredicts` | scripts/relocate_userdata_layout.py:109-113 | Without aliases and with distinct targets there are no surprises, so a dry run counts exactly the files and rows that the real run then changes |
| `MediaRows.DryRunChangesNothing` | scripts/relocate_userdata_layout.py:109-113 | A dry run changes no file and no row |
| `MediaRows.FirstRowIsStranded` | scripts/relocate_userdata_layout.py:269-291 | Two rows of one path, two companies, only the first target taken: the first row no longer leads to its file |
| `MediaRows.ARowIsStranded` | scripts/relocate_userdata_layout.py:269-291 | with concrete names |
| `ApplicationRelocation.RelocateApplication` | scripts/relocate_userdata_layout.py:200-227 | Slots, then the signature, are handled in turn as the reference-by-reference specification says; slot names are kept |
| `ApplicationRelocation.PlacesInFields` | scripts/relocate_userdata_layout.py:200-227 | A reference under the old prefix whose file is there is moved if the name under the new prefix is free; any other is kept |
| `ApplicationRelocation.JobIsApart` | scripts/relocate_userdata_layout.py:190-196 | What the theorems ask of the prefixes holds for every application whose company folder is not itself called applications |
| `ApplicationRelocation.RunKeepsDisk` | scripts/relocate_userdata_layout.py:200-227 | File by file, for any references: moved, with its bytes, exactly when some reference to it under the old prefix is the first one there with its target and the target is free |
| `ApplicationRelocation.ReferenceFollowsIff` | scripts/relocate_userdata_layout.py:200-227 | For any references, files of one name included: a reference still leads to its bytes exactly when its file stays or it is the first reference with that target; the bytes are always somewhere |
| `ApplicationRelocation.SignatureDangles` | adapters/storage/applications.py:325-327 | The signature is stored twice, so whenever its file moves the signature column is left dangling |
| `KeyRotation.Database.ProcessTarget` | scripts/rotate_encryption_key.py:130-176 | Rotates exactly the selected values that open under the old key and counts each class, whatever the row order; the plaintext counter is always 0 because the SELECT already filters by prefix |
| `KeyRotation.Database.Run` | scripts/rotate_encryption_key.py:179-248 | Exit code and cells: nothing changes unless the arguments are accepted, the mode is apply and every listed value opens under one of the keys; the counts are those of the database at the start in either mode |
| `KeyRotation.RotatesInFields` | scripts/rotate_encryption_key.py:112-119 | Cell by cell: each token of the old key in a company key, a bot token or the one setting becomes a token of the new key for the same text; nothing else changes |
| `KeyRotation.BlockedIff` | scripts/rotate_encryption_key.py:225-237 | A run is blocked exactly by a listed token that is of neither key, or damaged |
| `KeyRotation.CountsInFields` | scripts/rotate_encryption_key.py:130-176 | The counters are the numbers of tokens of either key, and the unknown the rest |
| `KeyRotation.EarlierTargetsDoNotMatter` | scripts/rotate_encryption_key.py:214-224 | Rotating earlier targets changes neither what a later one selects nor how its values classify, so a dry run counts what an apply run rotates |
| `KeyRotation.NothingSavedIsRotation` | scripts/rotate_encryption_key.py:130-176 | Select then update by key is the rotation of a target when nothing is saved in between |
| `KeyRotation.SavedIsKeptIff` | scripts/rotate_encryption_key.py:106-170 | Whatever the application saves in between, every covered secret reads under the new key as it read before the updates exactly when no selected one got another text and no other one got encrypted |
| `KeyRotation.SavedSecretIsOverwritten` | scripts/rotate_encryption_key.py:106-170 | A secret saved in between is overwritten with the text it replaced |
| `KeyRotation.CommitKeepsMeaning` | scripts/rotate_encryption_key.py:130-248 | After a commit every listed encrypted value reads under the new key as it read before and no longer opens under the old; every other cell is untouched |
| `KeyRotation.SecondRunRotatesNothing` | scripts/rotate_encryption_key.py:150-160 | A second apply run rotates nothing, finds every listed value already new and changes nothing |
| `KeyRotation.SwitchIsSafeIff` | scripts/rotate_encryption_key.py:112-119 | After a commit everything reads under the new key exactly when no column off the list holds a token of another key |
| `KeyRotation.UnlistedColumnIsLost` | scripts/rotate_encryption_key.py:6-13 | One encrypted proposal summary is enough to be left unreadable by a committed rotation |
| `TenantRegistry.Registry.Get` | infra/registry.py:38-61 | Returns the context of the account, at the recent end, and closes the oldest beyond the capacity |
| `TenantRegistry.Registry.EvictIfNeeded` | infra/registry.py:63-79 | Closes from the old end exactly as many as exceed the capacity, in order |
| `TenantRegistry.Registry.Invalidate` | infra/registry.py:81-87 | Removes and closes the context of the account, if there is one |
| `TenantRegistry.Registry.CloseAll` | infra/registry.py:89-98 | Closes every context once and empties the registry |
| `TenantRegistry.HitsInEntries` | infra/registry.py:38-61 | Entry by entry: an account that is held goes to the recent end with its context, the others keep their order, nothing is constructed or closed |
| `TenantRegistry.MissesInEntries` | infra/registry.py:38-79 | Another account gets a new context at the recent end, and if that is one too many the oldest goes and is closed |
| `TenantRegistry.DropsInEntries` | infra/registry.py:81-98 | Invalidating takes one entry out and closes its context; closing all closes from the old end |
| `TenantRegistry.LruHolds` | infra/registry.py:38-79 | After any trace of accesses the registry holds, in recency order, exactly the last max_tenants distinct accounts |
| `TenantRegistry.StackProperty` | infra/registry.py:63-79 | A larger registry always holds everything a smaller one does |
| `TenantRegistry.CachedOrClosedOnce` | infra/registry.py:38-98 | Over any run of get, invalidate and close_all every context constructed is either cached or has been closed exactly once |
| `ScanGate.Gate.WaitForRateSlot` | infra/file_safety.py:172-192 | One call of the gate: evict, perhaps sleep and evict again, stamp |
| `ScanGate.Gate.EvictLoop` | infra/file_safety.py:183-184 | Drops exactly the stamps over a second old |
| `ScanGate.WaitsUntilTheHeadIsOld` | infra/file_safety.py:185-189 | The gate sleeps only when the deque holds as many stamps as the rate, and then until its head is exactly a second old |
| `ScanGate.PassesInReadings` | infra/file_safety.py:180-192 | One call in its readings: stamped at once if there is room or the head is a second old, else with the reading after the sleep, and what is over a second old then is gone |
| `ScanGate.PassIsSpacedIff` | infra/file_safety.py:172-192 | Under a clock that does not go back, one call keeps stamps the rate apart in order a second apart exactly when it does not find the deque with more than the rate of stamps and the one the rate places back under a second old; it can find that only when its reading repeats the last stamp |
| `ScanGate.RunIsSpacedIff` | infra/file_safety.py:172-192 | Over every run of such a clock the spacing holds exactly when no call finds the gate so |
| `ScanGate.RateIsKeptIff` | infra/file_safety.py:172-192 | and no half-open second admits more than the rate, over the run, exactly then |
| `ScanGate.RunSpaced` | infra/file_safety.py:172-192 | With readings that all differ no call does, so stamps the rate apart differ by at least a second, over every run |
| `ScanGate.NoWindowExceedsRate` | infra/file_safety.py:172-192 | so no half-open one-second interval admits more than the rate |
| `ScanGate.EqualReadingsBreakTheRate` | infra/file_safety.py:182-192 | A run with two equal readings, where a rate of one admits two scans at one moment |
| `Instream.Send` | infra/file_safety.py:214-225 | The bytes put on the wire: each chunk behind its big-endian length, then the zero terminator |
| `Instream.ChunkOnTheWire` | infra/file_safety.py:214-225 | The bytes of the file from 65536 * k on go out behind their number, in four bytes with the most significant first |
| `Instream.WireEndsInZeros` | infra/file_safety.py:224-225 | Behind the last chunk there are four zero bytes and nothing more |
| `Instream.DeframeFrames` | infra/file_safety.py:214-225 | Reading the chunk stream back returns the original bytes and consumes the stream exactly, for every input |
| `Instream.PrefixIsIncomplete` | infra/file_safety.py:214-225 | No proper prefix of the stream reads as complete: the terminator is the only zero length |
| `ChatHistory.ChatStore.CreateConversation` | adapters/storage/ai_chat.py:93-108 | Opens a thread under a new id |
| `ChatHistory.ChatStore.LatestConversation` | adapters/storage/ai_chat.py:110-123 | Finds the most recently active thread in the workspace, and none exactly when there is none |
| `ChatHistory.ChatStore.Resolve` | adapters/storage/ai_chat.py:182-212 | Lands in the thread asked for when it is theirs and in the workspace, without one asked for in the latest, and otherwise in a new thread |
| `ChatHistory.ChatStore.PruneFor` | adapters/storage/ai_chat.py:273-288 | Keeps the newest 100 of the person's rows and drops their empty threads |
| `ChatHistory.ChatStore.Save` | adapters/storage/ai_chat.py:238-289 | Resolve, two inserts, touch, prune, drop |
| `ChatHistory.ChatStore.DeleteConversation` | adapters/storage/ai_chat.py:162-180 | Deletes a thread of theirs with its messages, and nothing else |
| `ChatHistory.ChatStore.ClearChatHistory` | adapters/storage/ai_chat.py:331-341 | Deletes all of the person's rows and threads |
| `ChatHistory.ChatStore.PruneByAge` | adapters/storage/ai_chat.py:343-366 | Deletes the rows older than the cutoff and every thread left empty |
| `ChatHistory.UsableIff` | adapters/storage/ai_chat.py:182-212 | An exchange goes into the thread asked for if that is theirs and in the workspace, and without one asked for into the latest |
| `ChatHistory.LatestInFields` | adapters/storage/ai_chat.py:110-123 | The latest thread is the one of theirs in the workspace with the last activity, among equals the one opened last |
| `ChatHistory.OpensInFields` | adapters/storage/ai_chat.py:93-108 | A new thread has the next id, its owner and workspace, and no activity but its opening |
| `ChatHistory.ExchangesInFields` | adapters/storage/ai_chat.py:258-275 | An exchange is the question, at most 1000 characters, and then the answer, at most 2000, with the tier, in the thread, whose activity is now |
| `ChatHistory.CapsInFields` | adapters/storage/ai_chat.py:276-286 | The cap keeps a row of the person when fewer than 100 of theirs are newer, and every row of anyone else |
| `ChatHistory.DropsInFields` | adapters/storage/ai_chat.py:214-234 | A drop of empty threads keeps those with a message, and those of others than the person it is for |
| `ChatHistory.DeletesInFields` | adapters/storage/ai_chat.py:162-366 | Which messages a delete, a clear and the age sweep take, field by field |
| `ChatHistory.ThreadsGoInFields` | adapters/storage/ai_chat.py:162-366 | and which threads |
| `ChatHistory.NewestIsTheTop` | adapters/storage/ai_chat.py:276-286 | ORDER BY id DESC LIMIT n is the n largest ids, or all if there are fewer |
| `ChatHistory.SaveKeepsTheNewest` | adapters/storage/ai_chat.py:238-289 | After every save the person's rows are exactly the newest 100 of those they had and the two new ones, the new ones among them |
| `ChatHistory.SaveKeepsTheThread` | adapters/storage/ai_chat.py:238-289 | The thread returned is there and theirs, no thread of theirs is empty, and every message's thread exists |
| `ChatHistory.SaveKeepsOthers` | adapters/storage/ai_chat.py:238-289 | Everyone else's rows and threads are untouched |
| `ChatHistory.RunIsSound` | adapters/storage/ai_chat.py:162-366 | Over every run of whole saves, opens, deletes, clears and sweeps every message's thread exists and is its owner's, and nobody has more than 100 rows |
| `ChatHistory.StatementIsSoundIff` | adapters/storage/ai_chat.py:93-366 | A single statement keeps every message in a thread of its owner exactly when it neither inserts into a thread that is gone or not theirs nor deletes a thread that has messages |
| `ChatHistory.RunOfStatementsIsSoundIff` | adapters/storage/ai_chat.py:93-366 | Over any interleaving of the statements of any number of requests, that holds all the time exactly when no statement of the run does so |
| `ChatHistory.EndsSoundIff` | adapters/storage/ai_chat.py:93-366 | Once all requests of an interleaving have finished, every message is in a thread of its owner exactly when every message has been deleted since that was inserted after its thread was gone, or between the two statements of a clear |
| `ChatHistory.SaveIsItsStatements` | adapters/storage/ai_chat.py:238-289 | A save with nothing in between is its statements one after another |
| `ChatHistory.OperationsAreTheirStatements` | adapters/storage/ai_chat.py:162-366 | and so are an open, a delete, a clear and the age sweep |
| `ChatHistory.ExchangeIsSoundIff` | adapters/storage/ai_chat.py:258-272 | Writing an exchange is sound exactly when its thread is still there and theirs |
| `ChatHistory.DropBetweenOrphans` | adapters/storage/ai_chat.py:214-234 | A drop of empty threads between the opening of a thread and its first insert leaves the exchange in no thread |
| `AccountLifecycle.AccountTable.LookUpName` | adapters/storage/accounts.py:28-37 | Strips the name and answers whether another account has it up to case |
| `AccountLifecycle.AccountTable.InsertAccount` | adapters/storage/accounts.py:39-54 | Adds the account under a new id; nothing checks the name again |
| `AccountLifecycle.AccountTable.SuspendAccount` | adapters/storage/accounts.py:294-321 | Suspends exactly an account that is not suspended |
| `AccountLifecycle.AccountTable.UnsuspendAccount` | adapters/storage/accounts.py:323-344 | Lifts a suspension exactly when no deletion is under way |
| `AccountLifecycle.AccountTable.RequestAccountDeletion` | adapters/storage/accounts.py:346-383 | Starts a deletion exactly when none is under way, and returns its purge date |
| `AccountLifecycle.AccountTable.CancelAccountDeletion` | adapters/storage/accounts.py:385-404 | Cancels exactly a deletion under way, and activates the account |
| `AccountLifecycle.AccountTable.LookUpActive` | interfaces/bot/admin.py:215-222 | The read of the operator's switch |
| `AccountLifecycle.AccountTable.UpdateActive` | adapters/storage/accounts.py:132-171 | and its write, which looks neither at a suspension nor at a deletion |
| `AccountLifecycle.AccountTable.SetSetupPending` | adapters/storage/accounts.py:408-416 | Closes the set-up gate |
| `AccountLifecycle.AccountTable.FinishSetup` | adapters/storage/accounts.py:434-443 | Names and finishes exactly a pending set-up; nothing checks the name again |
| `AccountLifecycle.AccountTable.ClaimAbandonedSetup` | adapters/storage/accounts.py:461-480 | Claims exactly an account still pending since before the cutoff |
| `AccountLifecycle.AccountTable.ListPendingPurge` | adapters/storage/accounts.py:482-500 | Lists exactly the deleted accounts whose date has come |
| `AccountLifecycle.SuspensionsInFields` | adapters/storage/accounts.py:294-344 | A suspension keeps the first one; lifting one needs a suspension and no deletion |
| `AccountLifecycle.DeletionsInFields` | adapters/storage/accounts.py:346-404 | A deletion is due its grace period from now; while one is under way another changes nothing; a cancel takes back all a request wrote and turns the account on |
| `AccountLifecycle.SetupsInFields` | adapters/storage/accounts.py:408-480 | A claim takes an account pending since the cutoff or longer, for purge at once; finishing takes a pending one |
| `AccountLifecycle.StepsInFields` | adapters/storage/accounts.py:39-500 | Each statement is its change of one account and touches no other |
| `AccountLifecycle.LooksIff` | adapters/storage/accounts.py:28-37 | A look goes on to a write exactly when no other account has the name in any case |
| `AccountLifecycle.TakenInFields` | adapters/storage/accounts.py:28-37 | A name is taken when another account has the same letters in any case |
| `AccountLifecycle.RunKeepsDates` | adapters/storage/accounts.py:346-480 | Over every run a deletion and its purge date come and go together |
| `AccountLifecycle.StepKeepsSoundIff` | adapters/storage/accounts.py:132-480 | A statement keeps deleted accounts inactive exactly when it is not the operator's switch turning on an account that is being deleted |
| `AccountLifecycle.RunIsSoundIff` | adapters/storage/accounts.py:132-480 | Over a whole run a deleted account is inactive at every moment exactly when the switch never does that |
| `AccountLifecycle.SwitchActivatesDeletedIff` | interfaces/bot/admin.py:215-223 | The switch reads, anything lands, it writes the opposite: it turns on an account being deleted exactly when it read an inactive one and a deletion is under way at the write |
| `AccountLifecycle.SwitchActivatesADeletedAccount` | interfaces/bot/admin.py:215-223 | An account in its grace period and one use of the switch: active, and still to be purged |
| `AccountLifecycle.NameWriteIsSafeIff` | adapters/storage/accounts.py:426-443 | A write that was told its name is free keeps names distinct up to case exactly when no other account took the name between the look and the write and still has it |
| `AccountLifecycle.NamesStayDistinctIff` | adapters/storage/accounts.py:28-54 | Over a whole run of sign-ups, set-ups and everything else, no two accounts ever share a name exactly when no write was raced so |
| `AccountLifecycle.TwoSignUpsShareAName` | adapters/storage/accounts.py:28-54 | Two sign-ups for one name both look, both are told it is free and both insert |
| `AccountLifecycle.DeletionStands` | adapters/storage/accounts.py:132-383 | Until it is cancelled a deletion stands over every run, without an abandoned-setup claim its dates do not move, and the account is never active exactly when the switch never turns it on |
| `AccountLifecycle.PurgeDateMovesIff` | adapters/storage/accounts.py:346-480 | The purge date of a deleted account moves exactly on a cancel or on a claim at another time; a repeated request never moves it |
| `AccountLifecycle.StepKeepsActiveIff` | adapters/storage/accounts.py:132-404 | 'Active iff neither suspended nor deleted' is kept by every step but exactly two: a cancel on a suspended account, and a switch to a value that differs from that |
| `AccountLifecycle.RunKeepsActiveIffFree` | adapters/storage/accounts.py:132-404 | and so at every moment of a whole run exactly when no step of it is one of the two |
| `AccountLifecycle.OwnerLiftsSuspension` | adapters/storage/accounts.py:385-404 | The owner of a suspended account who requests a deletion and cancels it is active again |
| `AccountLifecycle.FinishedSetupIsSafe` | adapters/storage/accounts.py:461-480 | A finished set-up is never claimed, however stale the listing |
| `AccountLifecycle.PurgeTakesADueAccountIff` | interfaces/bot/scheduler.py:697-716 | The purge sweep does not look again after listing: what it purges is still due exactly when no cancel came since, so an account cancelled and asked for again loses its new grace period |
| `AccountLifecycle.PurgeTakesALiveAccountIff` | interfaces/bot/scheduler.py:697-716 | and it is a live account, not marked deleted at all, exactly when the owner's last word since the listing was to cancel |
| `ScanRescan.Rescan.RunJob` | infra/scan_rescan.py:92-222 | The loop with all its exits, among them a progress write, a quarantine mark or a closing write that fails or is cancelled, ends with the job row and the quarantine set of the specification |
| `ScanRescan.Rescan.RunJobWithoutTargets` | infra/scan_rescan.py:102-106 | A job that cannot list its targets ends in the exception handlers with an empty row |
| `ScanRescan.ExitsInFields` | infra/scan_rescan.py:92-222 | Every exit field by field: status, error text (500 characters at most) and what is shown as scanned, or still running when even the last write fails |
| `ScanRescan.ShownAreTheCounters` | infra/scan_rescan.py:195-206 | The row shows clean, infected and error counts of exactly the targets it says were scanned, up to a full ten, the last, or the outage |
| `ScanRescan.CountersInEvents` | infra/scan_rescan.py:112-194 | Clean files and infected ones are counted as such, a missing file and an unavailable scanner as an error |
| `ScanRescan.QuarantinedIff` | infra/scan_rescan.py:178-194 | Quarantined are exactly the targets counted infected whose mark landed |
| `ScanRescan.CountersAreExact` | infra/scan_rescan.py:114-194 | The loop's own counters have seen every target up to the one it stopped at exactly once |
| `ScanRescan.JobCountsAddUp` | infra/scan_rescan.py:195-206 | At every exit the row's counts add up to what it says was scanned, which is at most ten short of what was counted, and ten short exactly when the loop stopped in trouble at a tenth target |
| `ScanRescan.JobEndsAs` | infra/scan_rescan.py:203-222 | The row is terminal exactly when the last write the job tried lands, and completed exactly when every target was scanned and the write that says so lands |
| `ScanRescan.FindingsAreShownIff` | infra/scan_rescan.py:112-206 | The row shows every infected file counted exactly when none was counted since the last progress write that landed |
| `ScanRescan.CancelHidesAFinding` | infra/scan_rescan.py:112-117 | A file quarantined just before a cancel is in no count |
| `DraftReminders.ListDraftsNeedingReminder` | adapters/storage/application_drafts.py:188-210 | The loop with its early exit returns the first due rows, up to the limit |
| `DraftReminders.DueOfMembers` | adapters/storage/application_drafts.py:188-210 | What is listed is exactly the due rows looked at, each once |
| `DraftReminders.DueInFields` | adapters/storage/application_drafts.py:151-210 | A draft is listed exactly when it was selected, its link is on with reminders left, and expiry, idle time and last stamp allow it; exactly a cadence is enough |
| `DraftReminders.BeginsInFields` | adapters/storage/application_drafts.py:151-210 | A run starts with the first due drafts, as many as the limit, each with its link policy and its counter as they are then |
| `DraftReminders.SendsInFields` | features/applications/drafts_reminder.py:37-46 | A mail goes to the first in line for the row in hand, and waits for its stamp; a refused mail changes nothing |
| `DraftReminders.StampsInFields` | adapters/storage/application_drafts.py:132-149 | A stamp writes the time and counts, if the draft is still there |
| `DraftReminders.NudgesInFields` | features/applications/router.py:671-695 | A nudge by hand mails at once; its stamp writes the time and does not count |
| `DraftReminders.RunKeepsInv` | features/applications/drafts_reminder.py:22-51 | Listing, mailing, stamping, failing to stamp, dying, saving, removing, nudging and editing links keep mails, stamps, counters and the waiting batch in agreement |
| `DraftReminders.RemindersAreCounted` | features/applications/drafts_reminder.py:37-50 | Over every run the automatic reminders of a draft are those its counter counts, those whose stamp was lost, and the one in flight |
| `DraftReminders.SendKeepsPolicyIff` | features/applications/drafts_reminder.py:37-50 | A reminder keeps the lifetime cap exactly when fewer stamps of the draft were lost than its listed row has reminders left, and the cadence exactly when every reminder whose stamp was lost is a cadence back |
| `DraftReminders.PolicyHoldsIff` | adapters/storage/application_drafts.py:132-210 | Over every run all automatic reminders of a draft kept cap and cadence, as its link had them at each listing, exactly when that is so before each of them |
| `DraftReminders.NoLossKeepsPolicy` | adapters/storage/application_drafts.py:132-210 | in particular when no stamp of the draft was lost |
| `DraftReminders.ALossAloneDoesNoHarm` | features/applications/drafts_reminder.py:37-50 | but not only then: a run that loses the stamp of its last mail keeps both |
| `DraftReminders.RemindersAreCappedAndSpaced` | adapters/storage/application_drafts.py:132-210 | Over every run a draft gets at most its link's lifetime number of automatic reminders and one for each lost stamp, and any two are a cadence apart unless the stamp of the first was lost |
| `DraftReminders.StampDecides` | adapters/storage/application_drafts.py:132-149 | When the stamp lands the draft is not due again for a cadence; when it fails the table says what it said before the mail |
| `DraftReminders.LostStampMailsTwice` | features/applications/drafts_reminder.py:37-50 | A run with two mails at one hour under a link that allows one reminder, a day apart |
| `DraftReminders.MailIsSpacedIff` | adapters/storage/application_drafts.py:188-210 | A reminder is a cadence from every mail to its draft, by hand or not, exactly when the mails are that the listing could not know of: sent since, or not stamped by then |
| `DraftReminders.EveryMailIsSpacedIff` | features/applications/drafts_reminder.py:22-51 | and so for every reminder of every run |
| `DraftReminders.NudgeInMidBatchDoubles` | features/applications/router.py:671-695 | A nudge by hand while the draft waits in a batch gives two mails at one moment |
| `AlertTriggers.TriggerTable.UpdateAlertTrigger` | adapters/storage/alert_triggers.py:103-166 | Writes exactly the given fields, exactly when the row is the owner's and still holds the pair that was read |
| `AlertTriggers.TriggerTable.CreateAlertTrigger` | adapters/storage/alert_triggers.py:60-101 | Adds one enabled trigger under a new id |
| `AlertTriggers.TriggerTable.DeleteAlertTrigger` | adapters/storage/alert_triggers.py:168-178 | Deletes exactly the owner's row |
| `AlertTriggers.PatchInFields` | adapters/storage/alert_triggers.py:103-166 | The fields given are written and the others kept, exactly when anything is given, the row is theirs and the pair is the one seen |
| `AlertTriggers.RequestsInFields` | capabilities/alerting/triggers/router.py:454-489 | A request that changes the pair goes on exactly when the row is theirs and the pair that will exist is in its band, and remembers the pair it read; any other goes on at once |
| `AlertTriggers.RowsComeAndGo` | adapters/storage/alert_triggers.py:60-178 | A trigger is created under a new id with a pair in its band, and removing one takes just that |
| `AlertTriggers.BandsAreClosed` | capabilities/alerting/triggers/router.py:462-475 | A band includes both its ends, and an unknown metric accepts nothing |
| `AlertTriggers.EveryPairIsValid` | capabilities/alerting/triggers/router.py:454-489 | However many edits interleave, every stored (metric, threshold) is a pair that was judged valid |
| `AlertTriggers.WriteLandsIff` | adapters/storage/alert_triggers.py:139-166 | A write lands exactly when the pair read is still there, and then stores exactly the pair judged |
| `AlertTriggers.DisjointEditsCannotBothLand` | adapters/storage/alert_triggers.py:139-153 | Of two edits judged against one pair at most one lands |
| `AlertTriggers.WithoutTheGuardAPairGoesBad` | adapters/storage/alert_triggers.py:139-148 | Two valid edits without the guard leave oil pressure at 45 |

## Left out

- Queries of the alert board without shared state: active vehicles, chronic and plain mutes, stale and re-escalation lists, claims and workers as operations (the worker ledger is an input of the filter), and the LIMIT of the grouped list.
- SQL three-valued logic: a comparison with NULL simply does not select, and the compiler negates nothing but EXISTS.
- Unicode lowering, whitespace and collation: letters and blanks are ASCII, and text sorts by code point.
- `rate_limit_check`: a counter for each fixed window; its comment says sliding, the code does not slide.
- The stale-while-revalidate refresh and the cross-process Redis lock around a fetch: the lock is a reply of the environment, which may be either answer.
- Redis, ClamAV, Telegram, mail and HTTP: only the atomic step of each call; the verdict read after the INSTREAM stream is not modelled.
- Task cancellation inside `get_or_compute`: cancelling a waiter cancels the shared future.
- `max_tenants` below zero, the idle times that are only logged, and errors raised by closing a context.
- Float rounding in the rate gate and in trigger thresholds.
- Authorisation of approvals and undos, the seven-day undo window, summaries and payloads of proposals beyond what an edit changes.
- Path normalisation (`//`, `.`, `..`), directories, symbolic links, and a stored path that is itself an absolute path of a moved file.
- MediaRelocation.RunKeepsInv: assumes, as all theorems about this phase do, that no company folder is named so that it ends with the legacy bucket's name.
- MediaRows.RowLeadsByStartIff: assumes, as MediaRows.DryRunPredictsIff does, different targets for different files, which the script takes from the id prefix of its file names; MediaRows.RowLeadsIff does not.
- MediaRows.RowFollowsIff: assumes besides that rows with different stored paths name different files; MediaRows.RowLeadsByStartIff does not.
- MediaRows.DryRunPredicts: assumes both, as a dry run does not know where earlier rows would have moved their files; MediaRows.BooksAgreeIff does not.
- Branding, placeholder, orphan and rootless phases of the relocation and the repointing of the upload queue: the same find, move and update without a remap across path forms.
- KeyRotation.Database.Run: the key derivation is the identity, so two passphrases never derive one key.
- Conversation titles, listing and export of chat history, and the 50-thread listing cap.
- `update_account` beyond the active flag, including the coupling of kind and is_test, account slugs, seeding, deletion codes and the table-by-table purge.
- Two rescans at once and the cancel flag dictionary: the loop sees the flag as an input at each target. A write that fails is taken to change nothing.
- AccountLifecycle.PurgeTakesADueAccountIff: set-ups claimed as abandoned meanwhile are left out, since that sweep purges what it claims; requests after the listing have a grace period above zero.
- ChatHistory.RunIsSound: over whole operations; what interleaved statements do is ChatHistory.RunOfStatementsIsSoundIff, by which a delete is unsound between its two statements, and ChatHistory.EndsSoundIff.
- AlertTriggers.EveryPairIsValid: scope is always personal, and the cap on triggers per person is left to the router.
- `scripts/relocate_vehicle_folders.py`, the observability and configuration modules, and the data tables.
