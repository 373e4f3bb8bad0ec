# Verification of shared-events

Dafny models of the protocol code in `Bengo-Hub/shared-events`, with proofs of what that code promises.
Each store the Go library talks to is a small abstract state: a SQL table is a map, the broker a log
with a duplicate window, a registry a map of sets, and time an integer clock in seconds.

| module | file | models |
|---|---|---|
| Outbox | `Outbox.dfy` | the outbox table and `SQLOutboxRepository` |
| OutboxProtocol | `OutboxProtocol.dfy` | all replicas, the table, the broker log and the clock as one step machine |
| OutboxSafety | `OutboxSafety.dfy` | no loss, attempt counting, bounded claims, exclusive claims |
| OutboxOnce | `OutboxOnce.dfy` | a duplicate window for which the broker stores an event exactly once |
| OutboxWindow | `OutboxWindow.dfy` | the window needed, exactly: runs that store an event twice in any smaller one |
| Publishing | `Publisher.dfy` | `Publisher` and `OutboxPoller` as imperative code refining the step machine |
| OutboxProgress | `OutboxProgress.dfy` | how soon a row is claimed and how much work a backlog causes |
| Ledger, LedgerSafety | `Ledger.dfy`, `LedgerSafety.dfy` | the processed-events ledger and its runs |
| EndToEnd | `EndToEnd.dfy` | from the outbox row through the broker's log to the consumer's effect |
| TenantPurge, PurgeLaws | `TenantPurge.dfy`, `PurgeLaws.dfy` | the tenant purge and the laws of its retry loop |
| PurgeOrder | `PurgeOrder.dfy` | exactly when a purge succeeds, and when the order of its tables matters |
| Subjects, Broadcast | `Subjects.dfy`, `Broadcast.dfy` | subject encoding and the cross-pod bus |
| Fanout, Pumping | `Fanout.dfy`, `Pump.dfy` | the hub, its subscribers, and the socket write loop |
| Rebind | `Rebind.dfy` | the consumer rebind loops |
| Balance, BalanceAlerts | `Balance.dfy`, `BalanceAlerts.dfy` | the low-balance rules, and claiming and sending the alerts |

The environment's answers (the broker, the database, NATS, other goroutines, the clock) are parameters:
sequences, functions of a step number, or action arguments. Every theorem quantifies over them.

## Where the code and its documentation disagree

The model follows the code.

- `headers.go` says a republish after a crash is dropped by the 2-minute duplicate window. The stale
  limit is also 2 minutes, counted from the claim, so the copy can arrive after the window has closed:
  `OutboxWindow.DefaultWindowCanStoreTwice`. `OutboxWindow.WindowBoundIsExact` gives the window that is needed.
- The repository's README example configures `MaxAttempts: 15`. With `SQLOutboxRepository` a row is parked at its
  third failure, and the publisher's own limit acts only below 3:
  `OutboxSafety.PublisherLimitNeedsLessThanThree`, `OutboxSafety.LimitBelowThreeActs`.
- The outbox promises at-least-once delivery. A poller over a `JetStreamAdapter` without a connection
  deletes events nobody received; a fleet is safe exactly when every replica is connected:
  `OutboxSafety.NeverLosesExactlyWhenConnected`.
- `idempotency.go` says the ledger lets a consumer handle an event exactly once. A claim that inserts its row
  and returns an error is never won again, so the effect is missed: `LedgerSafety.LostClaimBlocks`,
  `EndToEnd.LostAnswerMissesTheEffect`. `EndToEnd.EffectAllowedExactlyWhen` says when it is not.
- `subscribe.go` calls its backoff capped at 30 s. It doubles while below 30 s and so reaches 48 s.
- The delivery rules of `FanoutHub` hold across pods only for names that survive the subject encoding:
  `Fanout.PodsAgreeExactlyWhenClean`, `Fanout.UncleanNamesChangeTheAudience`.
- After `Broadcaster.Close`, `Subscribe` on a topic that already has handlers reports success but opens no
  subscription: `Broadcast.SubscriptionsAfterClose`.
- The purge is documented to find foreign-key order by retrying. Whether it does can depend on the order in
  which tables are listed, exactly when some chain of references is longer than the pass cap:
  `PurgeOrder.ListingOrderMattersExactlyWhen`. The tenant's own tables are not retried at all, so
  their order counts as well: `PurgeOrder.DropSucceedsExactlyWhen`, `PurgeOrder.TenantTableOrderMatters`.

## Model

| member | source | states |
|---|---|---|
| Outbox.SqlOutboxRepository.GetPendingRecords | repository_sql.go:79-146 | claims the oldest open rows up to the limit, skipping locked ones; returns each claimed row once; says exactly what changes when the answer is lost or the limit negative |
| Outbox.SqlOutboxRepository.PickOldest | repository_sql.go:84-88 | ORDER BY created_at LIMIT: as many open rows as the limit allows, none younger than one left behind |
| Outbox.SqlOutboxRepository.ScanRows | repository_sql.go:104-143 | the rows loop lists exactly the claimed rows, once each, in any order |
| Outbox.SqlOutboxRepository.MarkAsPublished | repository_sql.go:156-172 | deletes by id alone; "event not found" exactly when the row was already gone |
| Outbox.SqlOutboxRepository.MarkAsFailed | repository_sql.go:180-196 | counts one failure by id alone, parks at the third, and does nothing for a missing row |
| Outbox.SqlOutboxRepository.CreateOutboxRecord | repository_sql.go:34-59 | inserts unless the id is present |
| Outbox.SqlOutboxRepository.CreateOutboxRecordInTx | outbox.go:67-87 | stores the row exactly when the event can be encoded and its id is new; the row is PENDING with no attempts and its payload carries its own id |
| Outbox.SqlOutboxRepository.CommitWithOutbox | outbox.go:65-66 | the domain's rows and the event are committed together or both are as before, a lost COMMIT answer included |
| OutboxSafety.StepKeepsInv | repository_sql.go:79-196 | every protocol step keeps row statuses, claimed records and at-least-once accounting consistent |
| OutboxSafety.RunKeepsInv | publisher.go:86-166 | so does every run of any number of replicas |
| OutboxSafety.CommittedMeansInserted | outbox.go:67-88 | the committed events of a run are exactly the inserted ones |
| OutboxSafety.LogHoldsAcceptedSends | publisher.go:136-147 | the broker log holds exactly the events of accepted sends, including sends reported as errors |
| OutboxSafety.NoEventIsLost | publisher.go:142-157 | in every run an inserted event is PENDING, PROCESSING or FAILED, or accepted, or was skipped by a replica without a connection |
| OutboxSafety.NoEventIsLostWhenConnected | poller.go:91-121 | with connected replicas only the first two remain |
| OutboxSafety.NilConnectionLosesAnEvent | adapters.go:56-61 | every poller without a connection has a run in which it loses an event |
| OutboxSafety.NeverLosesExactlyWhenConnected | adapters.go:56-61 | a fleet loses no event in any run if and only if every one of its replicas is connected |
| OutboxSafety.AttemptsCountFailures | repository_sql.go:180-188 | in every interleaving attempts equals the failures applied to the row, and FAILED means three or more |
| OutboxSafety.ClaimsAreBounded | repository_sql.go:81-89 | a row with c stale reclaims is claimed at most 3 + c times, deleted rows included |
| OutboxSafety.FailedIsTerminal | repository_sql.go:174-179 | once FAILED, a row stays FAILED or is deleted and no later claim takes it |
| OutboxSafety.PublisherLimitNeedsLessThanThree | publisher.go:122-126 | a decodable record is turned away only by a publisher whose limit is below 3 |
| OutboxSafety.LimitBelowThreeActs | publisher.go:122-126 | every limit below 3 does turn one away in some run |
| OutboxSafety.ClaimKeepsExclusive | repository_sql.go:61-66 | a claim never picks a row whose holder is within the stale limit |
| OutboxSafety.StepKeepsExclusive | repository_sql.go:68-78 | every step keeps claims exclusive while holders are prompt |
| OutboxSafety.PromptReplicasAreExclusive | repository_sql.go:68-98 | among replicas that finish within the stale limit at most one holds a row, which is PROCESSING with that holder's claim time |
| OutboxSafety.MarkPublishedFindsItsRow | repository_sql.go:156-169 | so marking as published never meets a missing row |
| OutboxSafety.LateReplicaMissesItsRow | repository_sql.go:156-169 | with any longer holding time a replica shares its row and can meet "event not found" |
| OutboxSafety.ExclusiveExactlyWhenPrompt | repository_sql.go:61-66 | finishing every record within d keeps claims exclusive in every run if and only if d is within the stale limit |
| OutboxSafety.RowsAreFoundExactlyWhenPrompt | repository_sql.go:156-169 | and exactly then marking as published never meets a missing row |
| OutboxOnce.AcceptKeepsCopies | headers.go:5-11 | accepting a copy inside the window, or another event, adds no copy |
| OutboxOnce.SpacedKeepsOnceInv | headers.go:5-14 | what every run with bounded claim gaps and publish delays keeps about one event |
| OutboxOnce.AcceptedEventIsStoredOnce | headers.go:5-14 | with a window above c(staleAfter + R) + D an accepted event is stored exactly once, errors after acceptance included |
| OutboxWindow.ReclaimsStoreTwice | repository_sql.go:66-98 | with slack, a window no larger than the bound stores an event twice in a run of stale reclaims |
| OutboxWindow.RefusalsStoreTwice | publisher.go:142-147 | without slack, the broker accepting and reporting an error, then refusing, leads to a second copy |
| OutboxWindow.LateHolderStoresTwice | repository_sql.go:180-190 | with no further claim at all, an earlier holder of the row may still publish it late |
| OutboxWindow.NoSlackKeepsSole | repository_sql.go:81-89 | without slack one replica holds the row at a time and only failures open it again |
| OutboxWindow.NoSlackClaimsTwice | outbox.go:39-44 | without slack a row is claimed at most twice after its first accepted publish |
| OutboxWindow.WindowBoundIsExact | headers.go:5-14 | for every stale limit, slack, delay and number of reclaims: stored at most once in every run if and only if the window exceeds the bound, or no second publish can follow |
| OutboxWindow.DefaultWindowCanStoreTwice | headers.go:7-11 | with both limits at two minutes an event can be stored twice |
| Publishing.Broker.PublishMsg | publisher.go:142-147 | stores a message unless refused or a duplicate inside the window, whatever is reported back |
| Publishing.Driver.PublishRecord | publisher.go:113-166 | handling one record, with any legal steps of other replicas before it is sent and before it is marked, is a legal run; over a connection an acknowledged publish is stored and its row deleted, any other answer and a rejected record count one failure, and a rejected or refused record leaves the log alone; without a connection the row goes unsent |
| Publishing.Driver.PublishRecords | poller.go:98-121 | the loop over a batch among other replicas is the concatenation of those runs and leaves none of its records held; when every publish is acknowledged all its rows are gone and their events stored |
| Publishing.Driver.ProcessBatch | publisher.go:86-110 | a whole poll among other replicas is a legal run: the claim, then every record, or a lost claim; it handles nothing only when nothing is open or the limit is zero; when every publish is acknowledged every claimed row is gone and its event stored |
| OutboxProgress.PollSettles | publisher.go:86-107 | an error-free poll touches only the rows it claimed; one of them survives, with one failure more, exactly when its record was rejected or, over a connection, not acknowledged |
| OutboxProgress.BatchKeepsExactly | publisher.go:113-166 | a row survives a batch exactly when every record of it in the batch is rejected or, over a connection, not acknowledged |
| OutboxProgress.RoundSpends | repository_sql.go:180-187 | a round spends one remaining attempt of every row it processes |
| OutboxProgress.PassedOver | repository_sql.go:84-88 | a pending row is passed over only by a full batch of older rows |
| OutboxProgress.PollIsRound | repository_sql.go:81-89 | on any run of one live replica, an error-free poll is one round of the progress argument |
| OutboxProgress.PassedOverSpends | repository_sql.go:84-88 | on such a run, while a row is passed over every poll uses up a batch of the older rows' attempts |
| OutboxProgress.PendingRowIsClaimedSoon | publisher.go:86-107 | after any history, on every run of one live replica with younger inserts between its polls, a row with k older unparked rows is claimed within floor(3k/L) + 1 polls |
| OutboxProgress.BacklogIsSettledIn3N | outbox.go:39-44 | on every such run without inserts, N pending rows cause at most 3N publish attempts, and after 3N + 1 or floor(3N/L) + 3 polls every row is deleted or FAILED |
| OutboxProgress.PollOnTicks | publisher.go:67-84 | the ticker loop over the drivers is such a run, and that many polls leave no row pending |
| Ledger.EventHeaders | headers.go:12-22 | the seven headers; message id and event-id both carry the event's id |
| Ledger.BodyIsTheFallback | idempotency.go:138-156 | without the header the event is the body's id, else its event_id; a body with neither, or undecodable, names none |
| Ledger.IdempotencyStore.Claim | idempotency.go:56-69 | inserts unless present; wins exactly when it inserted |
| Ledger.IdempotencyStore.MarkProcessed | idempotency.go:87-95 | inserts unless present, keeping an existing time |
| Ledger.DeleteKeepsPruned | idempotency.go:110-113 | a batch delete removes stale rows only and keeps the accounting |
| Ledger.ArrivalKeepsPruned | idempotency.go:97-99 | claims between batches neither become stale nor get lost |
| Ledger.IdempotencyStore.Prune | idempotency.go:100-129 | removes exactly the rows older than the given span, 30 days when it is not positive, even with claims between batches; returns their number in floor(N/size) + 1 batches; stopped early it returns what it removed |
| LedgerSafety.WinLasts | idempotency.go:51-55 | a won claim stands until some pruner can see it as older than the smallest retention |
| LedgerSafety.WinsAreFarApart | idempotency.go:56-128 | two wins of one key are more than the smallest retention apart |
| LedgerSafety.ProcessedExactlyWhen | idempotency.go:71-82 | AlreadyProcessed finds a row if and only if some claim or mark of the key reached the database, answered or not, and no pruner has taken it since |
| LedgerSafety.WinsExactlyWhen | idempotency.go:51-68 | a delivery wins its claim if and only if the claim is answered and nothing that reached the database before it is still recorded |
| LedgerSafety.SomeDeliveryWinsExactlyWhen | idempotency.go:64-67 | unless marked or pruned, some delivery wins if and only if the first claim to reach the database was answered |
| LedgerSafety.LostClaimBlocks | idempotency.go:64-67 | after a claim that inserted its row and reported an error no delivery wins until a prune |
| LedgerSafety.CopiesShareAKey | idempotency.go:134-156 | all messages with one event's headers give one ledger key, whatever their bodies say |
| LedgerSafety.EventTakesEffectOncePerSpan | idempotency.go:51-69 | of all deliveries of an event within the retention span at most one wins the claim that allows the effect |
| EndToEnd.EffectsWereCommitted | outbox.go:67-88 | every effect a consumer is allowed is of an event that was inserted into the outbox and accepted by the broker |
| EndToEnd.CopiesTakeEffectOncePerSpan | headers.go:12-15 | of all copies the broker stored of one outbox row, redelivered at will, at most one per consumer and span is allowed its effect |
| EndToEnd.EffectAllowedExactlyWhen | idempotency.go:51-68 | unless marked or pruned, a consumer fed by the log is ever allowed the event's effect if and only if the first of its claims to reach the database is answered |
| EndToEnd.LostAnswerMissesTheEffect | idempotency.go:64-67 | a run in which a committed, stored and redelivered event is never allowed its effect |
| TenantPurge.Transaction.ExecInSavepoint | tenantpurge.go:194-210 | a foreign-key error exactly when a staying row refers to a leaving one and the savepoint could be rolled back; it leaves the rows as they were; a success only when it could be released |
| TenantPurge.TenantPurger.TenantColumns | tenantpurge.go:164-192 | selects exactly the tenant_id base tables not skipped, outbox or processed_event; any error while listing is returned |
| TenantPurge.TenantPurger.PurgePass | tenantpurge.go:118-133 | one pass over the pending tables, with the rows counted so far |
| TenantPurge.TenantPurger.ClearTables | tenantpurge.go:112-138 | the retry loop over a transaction computes the retry loop over sets of cleared tables |
| TenantPurge.TenantPurger.DropTenantRows | tenantpurge.go:139-157 | deletes the tenant's own rows in list order; any blocked delete or failed existence query is an error |
| TenantPurge.TenantPurger.Purge | tenantpurge.go:95-162 | all or nothing: on error the database is as before, or the COMMIT took effect and its answer was lost; what is committed removes exactly the tenant's rows of the selected tables and its own row of the listed existing tables, which by default are tenants and auth_tenants; on success the total is the number of rows removed |
| TenantPurge.OutcomeRemoves | tenantpurge.go:73-77 | a purge that commits removes a row if and only if it is the tenant's row of a cleared table or its own row of an existing tenant table, and changes no other |
| PurgeLaws.FreeIsMonotone | tenantpurge.go:118-137 | clearing more tables never blocks a delete that was possible |
| PurgeLaws.PassFacts | tenantpurge.go:114-133 | a pass clears tables in an order that works, leaves only tables blocked at its start, and never lengthens pending |
| PurgeLaws.StuckMeansNoOrderWorks | tenantpurge.go:134-136 | when a pass clears nothing, no order of the deletes could clear any remaining table |
| PurgeLaws.ClearsExactlyWhenSomeOrderDoes | tenantpurge.go:112-138 | short of the cap and other SQL errors, the tables are cleared if and only if some order of deletes works |
| PurgeLaws.ListingOrderDoesNotMatter | tenantpurge.go:112-138 | short of the cap and other SQL errors, two listings of the same tables end alike and clear the same tables |
| PurgeLaws.PassClearsOneMoreLevel | tenantpurge.go:118-137 | pass k clears every table whose longest reference chain has k tables |
| PurgeLaws.BoundedChainsAreCleared | tenantpurge.go:113-138 | with chains of at most 30 tables and no outside references every listing is cleared |
| PurgeLaws.PurgeRemovesExactly | tenantpurge.go:73-77 | a successful purge removes the tenant's rows of the selected and tenant tables and no other row |
| PurgeLaws.SecondPurgeRemovesNothing | tenantpurge.go:94-162 | after a committed purge, answered or not, a second one succeeds and removes nothing |
| PurgeLaws.PurgeKeepsIntact | tenantpurge.go:118-157 | a purge never commits dangling references |
| PurgeOrder.OrderMeansAcyclic | tenantpurge.go:134-136 | tables that some order clears have no cycle of references and no outside reference |
| PurgeOrder.AcyclicHasOrder | tenantpurge.go:73-77 | without cycles and outside references some order clears them |
| PurgeOrder.SomeListingClearsExactlyWhen | tenantpurge.go:112-138 | some listing is cleared if and only if there are no cycles and no outside references |
| PurgeOrder.PassLosesOne | tenantpurge.go:118-133 | a pass over a chain listed parents first clears at most one of its tables |
| PurgeOrder.EveryListingClearsExactlyWhen | tenantpurge.go:112-138 | every listing is cleared if and only if there are no outside references and no chain has more than 30 tables |
| PurgeOrder.ListingOrderMattersExactlyWhen | tenantpurge.go:115-117 | the listing order matters if and only if the tables can be cleared but hold a chain of more than 30 |
| PurgeOrder.CapDependsOnListingOrder | tenantpurge.go:115-117 | 31 chained tables are cleared in one listing order and capped in another |
| PurgeOrder.DropSucceedsExactlyWhen | tenantpurge.go:143-157 | the tenant's own rows are dropped if and only if no row that outlives a tenant table's turn refers to its row |
| PurgeOrder.PurgeSucceedsExactlyWhen | tenantpurge.go:95-162 | without other errors a purge succeeds for every listing if and only if the id is not nil, nothing outside refers, no chain exceeds 30 tables, and the tenant tables are in a working order |
| PurgeOrder.TenantTableOrderMatters | tenantpurge.go:139-142 | an auth_tenants row that refers to the tenants row makes the default list fail and its reverse work |
| Subjects.TokenIsClean | broadcast.go:150-158 | tokens replace exactly the seven characters dot, space, tab, newline, return, star and greater-than by underscores, and change exactly the names that hold one |
| Subjects.SubjectTokenIdempotent | broadcast.go:150-158 | sanitising twice is sanitising once |
| Subjects.SurvivesRelay | broadcast.go:160-172 | a tenant or scope reads back as itself exactly when it is clean and not "_" |
| Subjects.SplitInvertsJoin | broadcast.go:90-90 | splitting a subject undoes joining dot-free tokens |
| Subjects.SubjectHasFiveTokens | broadcast.go:90-93 | every published subject splits into its five parts |
| Broadcast.Broadcaster.Subscribe | broadcast.go:76-108 | the first handler opens the subscription; a failure removes the handler again |
| Broadcast.Broadcaster.Publish | broadcast.go:112-128 | local handlers run first and keep their delivery when the relay fails; what goes on the wire |
| Broadcast.Broadcaster.OnRelay | broadcast.go:86-100 | drops the own echo and dispatches the decoded message |
| Broadcast.Broadcaster.Arrive | broadcast.go:84-100 | an arriving message runs the callback of every open subscription it matches |
| Broadcast.Broadcaster.Dispatch | broadcast.go:140-147 | runs every handler of the topic once, in order |
| Broadcast.Broadcaster.Close | broadcast.go:131-138 | ends all subscriptions and keeps the handlers |
| Broadcast.RunKeepsWired | broadcast.go:76-108 | over any run of subscribes, subscriptions stay one per topic that got its first handler |
| Broadcast.OneSubscriptionPerTopic | broadcast.go:74-108 | a connected bus keeps exactly one subscription per topic with handlers, failed attempts included |
| Broadcast.SubscriptionsAfterClose | broadcast.go:130-138 | after a Close a topic is relayed again exactly when it had no handler then |
| Broadcast.EveryHandlerRunsOnce | broadcast.go:27-29 | a publish runs each handler exactly once on every pod reached and at most once on any |
| Fanout.OperateKeepsBalance | fanout.go:110-127 | each channel operation keeps offered = received + buffered + dropped, in order, within the size |
| Fanout.EveryRunIsBalanced | fanout.go:37-44 | so does every run, and what is received is an in-order part of what was offered |
| Fanout.NothingLostExactlyWhenKeepingUp | fanout.go:121-125 | over any run nothing is dropped if and only if the offers never outnumber the receives by more than the size; then all that was offered is received or buffered, in order |
| Fanout.Sub.Send | fanout.go:121-125 | buffers the message last while there is room and otherwise counts it as dropped |
| Fanout.SameAudienceExactlyWhenClean | fanout.go:17-22 | the rule applied to a message as published and as relayed selects the same clients exactly for clean tenants and scopes |
| Fanout.ClientIsOffered | fanout.go:54-56 | on every pod the bus's calls of the hub's handler offer the message to each client once or not at all, by the delivery rule on the names that pod sees |
| Fanout.CleanNamesReachTheirAudience | fanout.go:17-22 | for clean names the clients offered it on every reached pod are exactly those of its tenant that hold its scope or the wildcard, or all when it has none; each once, nobody of another tenant |
| Fanout.PodsAgreeExactlyWhenClean | broadcast.go:160-172 | all clients of another pod react as those of the publishing pod if and only if tenant and scope are clean and not the placeholder |
| Fanout.UncleanNamesChangeTheAudience | broadcast.go:160-172 | scope "*" becomes tenant-wide on other pods, and tenant "a.b" reaches tenant "a_b" |
| Fanout.FanoutHub.constructor | fanout.go:48-59 | registers the hub's handler; a buffer size that is not positive becomes 32 |
| Fanout.FanoutHub.Subscribe | fanout.go:62-76 | adds one open, empty subscriber holding its non-empty scopes |
| Fanout.FanoutHub.Unsubscribe | fanout.go:79-91 | removes and closes a registered subscriber once; a second call changes nothing |
| Fanout.FanoutHub.Deliver | fanout.go:110-127 | each subscriber of the tenant that holds the scope or the wildcard, or any when there is no scope, gets the message last in its buffer, or counts one drop when full; every other one is unchanged |
| Fanout.FanoutHub.Publish | fanout.go:94-101 | each client is offered what the relay's calls of the hub's handler deliver, and the message goes out; with no relay, or registered there once, exactly the selected clients get it, in the buffer or as a drop |
| Fanout.FanoutHub.Arrive | fanout.go:54-58 | a relayed message reaches each client through the relay's calls of the hub's handler |
| Fanout.FanoutHub.Count | fanout.go:104-108 | the number of registered subscribers of a tenant |
| Pumping.WriteKeepsOrder | pump.go:71-85 | each frame written keeps hello first, messages a prefix of those received, replies in order |
| Pumping.StaysCaught | pump.go:71-95 | each event keeps the loop as far as the takes since the last arrival oblige it to be, with no reply of the first four lost |
| Pumping.Pump | pump.go:35-98 | for every interleaving and whatever was received before: hello is first, written exactly when its write succeeds; then all that is taken from now on, but for one failed write, merged with replies in order; after as many takes as the buffer holds nothing offered is left unwritten but the drops; replies are dropped only beyond the four queued; it ends only at a failed write or ping, a done context or a closed and emptied subscription |
| Rebind.SubscribeQueueWithRebind | subscribe.go:161-218 | for every answer sequence, on the server's texts: it abandons only at an error of none of the three kinds, and every call before was one of them; one 30 s wait and no attempt for each answer that only says the stream is missing; one delete at most, when an answer asks for it; conflict waits 3, 6, 12, 24, 48, ... summing to at most 1773 s; at most 40 + m calls; the outcome is that of the answers without the stream errors |
| Rebind.NextAnswer | subscribe.go:167-212 | a retried answer leaves the verdict to the answers after it and takes up an attempt unless the stream was missing |
| Rebind.RetriesLeave | subscribe.go:166-212 | what a run of retried answers leaves: the verdict of the rest with the attempts left |
| Rebind.DeletedAtMostOnce | subscribe.go:174-186 | the consumer is deleted once, exactly when an answer asks for it and the stream is named |
| Rebind.EraseIsIdempotent | subscribe.go:187-195 | erasing the stream-missing answers a second time erases nothing |
| Rebind.ErasesByText | subscribe.go:187-195 | when no text holds both phrases, erasing drops exactly the answers that say "stream not found" |
| Rebind.WaitsForTheStream | subscribe.go:187-195 | at least the answers that say only that the stream is missing are waited for, and exactly those when none says both |
| Rebind.VerdictIsFirstDecision | subscribe.go:167-216 | it gives up exactly after forty retryable answers and succeeds exactly when success comes first |
| Rebind.BackoffsSum | subscribe.go:164-211 | the closed form of the summed waits |
| Rebind.SubscribeWithRebind | subscribe.go:74-107 | retries bind conflicts only, at most 40 times, with the same waits |
| Balance.MarkIsInside | balancealert/balancealert.go:78-88 | the low mark lies strictly inside a positive total; a ratio outside (0,1) means a fifth |
| Balance.CrossedMeansWorse | balancealert/balancealert.go:90-116 | a movement crosses exactly when the level after it is worse, and reports that level |
| Balance.CrossingsOfSpends | balancealert/balancealert.go:93-104 | over any run of spends low and empty are each reported at most once, low never after empty |
| Balance.PolledIsCrossings | balancealert/balancealert.go:10-13 | from above the mark, spend path and poller raise the same alerts in the same order |
| Balance.PathsAgreeExactlyWhen | balancealert/balancealert.go:10-13 | exactly when the two paths agree for any start |
| BalanceAlerts.KeysTellApart | balancealert/balancealert.go:126-133 | alerts that differ in the tenant, resource, level, period or epoch alone have different dedupe keys |
| BalanceAlerts.ScopesTellApart | balancealert/balancealert.go:126-133 | a platform alert never has the key of a tenant's |
| BalanceAlerts.Notifier.Notify | balancealert/balancealert.go:204-216 | claims first; a claimed key publishes nothing; a publish error leaves the key claimed |
| BalanceAlerts.Notifier.Spend | balancealert/balancealert.go:10-13 | whatever else is claimed, a spend path that notifies on every crossing claims exactly the crossings of the run and sends those whose publish succeeds: the empty alert when a movement takes a positive balance to zero or less, the low one when it takes one above the mark into it |
| BalanceAlerts.Notifier.Poll | balancealert/balancealert.go:12-16 | a poller that notifies on every tick claims each level once and sends it if the publish at its first reading succeeds; without a claim store, every bad reading |

## Left out

- NATS and SQL connections, tickers, logging and environment reading are answers and clock values.
- SQL text and PostgreSQL internals: statements are modelled by effect and as atomic; cascading keys,
  triggers, deferred constraints and views are not part of this model.
- FIFO publishing: the claimed rows come back in no particular order.
- Event ids are opaque and never inserted twice; the id inside a payload is the row's id, as
  `CreateOutboxRecordInTx` writes it. JSON and UUID parsing, `event.go` and `decode.go`, are not modelled.
- OutboxProtocol.Apply: a replica may handle its claimed records in any order and crash at any point, and
  a failure is stamped with the present time, which no property reads.
- Publishing.Driver.ProcessBatch: one class stands for `Publisher` and `OutboxPoller`, which differ only in
  the attempt limit and the connection; their stop channels are left out. Other replicas act between the
  claim, the sends and the marks; each of these is one step.
- `NATSAdapter`, plain core NATS without acknowledgement, is not part of this model.
- Ledger.IdempotencyStore.Prune: other pruners running at the same time are covered by the runs of
  LedgerSafety, not by the method.
- TenantPurge.TenantPurger.Purge: the cast between text and uuid columns and the missing database handle are
  left out; a row's tenant_id is its text.
- Purge events, their reasons, and acknowledging them (`tenantpurge.go:21-71`, `tenantpurge.go:226-278`)
  are single-branch facts.
- Subjects.SubjectToken: names are sequences of characters; invalid UTF-8 is not modelled.
- Fanout.FanoutHub.Publish: handlers are identified by number, and a call of the hub's number is a call of
  `Deliver`; locks are modelled by methods that run one at a time.
- BalanceAlerts.Notifier.Spend: a claim lasts for the whole run, here and in `Poll`: `Notify` passes a time to live to
  the claim, whose store is the caller's, and a key that expires may be claimed and sent again.
- LedgerSafety.Wins: the effect itself is the consumer's; one that dies between its claim and its effect leaves
  none, so what is proved of effects is that they are allowed.
- Pumping.Pump: goroutines, timeouts and pings are the events of an arbitrary schedule.
- Rebind.SubscribeQueueWithRebind: the settling wait and the result of deleting the stale consumer, which the
  code ignores, are left out.
- Alert payload formatting, rounding, hashing and floating point: amounts are reals.
- `relevance.go` is not part of this model.
