# listener-radio, modelled in Dafny

listener-radio is a Graphcast radio that listens for gossip messages and stores them in Postgres. It decodes every Waku message it hears as one of three message types: public POI, upgrade intent and simple. It inserts each message it decodes as a JSON row into the `messages` table. The table is kept bounded by two prunings: one by `max_storage` and one by retention age. A GraphQL API lists, fetches and deletes rows, reports which indexers were active in a time window, and summarises per-indexer statistics.

The model covers:

- **`Results`, `Strings`**: the `Option`/`Result` wrappers, decimal rendering of naturals, and joining with a separator.
- **`MessageTypes`, `RadioTypes`**: the message payloads and their `valid_outer` checks against the Graphcast envelope.
- **`RadioConfig`**: the wallet input, and the fields the agent configuration copies from the command line.
- **`Lib`**: `OperationError` and `clone_with_inner`, `chainhead_block_str`, and the filter behind `syncing_deployment_hashes`.
- **`Notifier`**: which channels are attempted for a notification, and that a failure never stops the later sends.
- **`Operation`**: `radio_msg_handler`, meaning the validation counters and the forwarding channel.
- **`Resolver`**: the `messages` table and every query on it.
  - A table is a map from row id to message, plus the next value of the BIGSERIAL sequence.
  - The queries are insert, list, get, delete, delete-all, retain by `max_storage`, prune by retention, and active indexers.
- **`Operator`**: `process_message` and the message processor loop, and the three ticks of the main loop (network, summary and daily) with the `skip_iteration` flag.
  - Database errors and timeouts are explicit inputs.
  - A panic in the summary tick is an explicit outcome.
- **`GraphQLRoot`**: the resolvers `rows`, `row`, `messages`, `message`, `delete_message` and `delete_messages`, which read stored rows back as radio payload messages and fail on a stored upgrade intent.
- **`ServerModel`**: `query_aggregate_stats` (the fold over indexer statistics and the rounded-up averages), the `minutes_ago` window, and `query_active_indexers`.

The current time, the outcomes of database calls and of notification sends, and the decoders of the three message types are all parameters.

Nonces are `u64`, but the prune by retention and the active-indexer query cast them to `bigint`. `process_message` stores a nonce without checking its size, so one stored nonce above 2^63 - 1 makes every later prune by retention and every active-indexer query fail. The model keeps that failure: `Resolver.OversizedNonceBlocksPruning` states it.

`process_message` does not deduplicate: it inserts every message it decodes, so a redelivered message is stored twice. `Operator.RedeliveryStoredTwice` states this.

## Model

| member | source | states |
|---|---|---|
| Strings.NatToString | src/lib.rs:75-88 | the rendering is a non-empty string of decimal digits with no leading zero |
| Strings.ParseNatToString | src/lib.rs:75-88 | parsing the rendered digits gives back the number |
| Strings.JoinAppend | src/lib.rs:75-88 | joining one more part appends the separator and that part |
| MessageTypes.PoiValidOuter | src/message_types.rs:43-59 | a POI message is accepted iff its identifier, nonce and graph account equal the envelope's; an accepted message is returned unchanged; a rejection is `InvalidFields` |
| MessageTypes.SimpleValidOuter | src/message_types.rs:78-88 | a simple message is accepted iff its identifier equals the envelope's; rejection is `InvalidFields` |
| MessageTypes.UpgradeValidOuter | src/message_types.rs:118-128 | an upgrade intent is accepted iff its nonce and graph account equal the envelope's; rejection is `InvalidFields` |
| MessageTypes.PoiVerdictIgnoresOtherFields | src/message_types.rs:43-59 | the verdict on a POI message depends only on the identifier, nonce and graph account of the message and the envelope |
| MessageTypes.UpgradeVerdictIgnoresIdentifier | src/message_types.rs:118-128 | the envelope identifier does not affect an upgrade intent's verdict |
| MessageTypes.SimpleVerdictIgnoresContent | src/message_types.rs:78-88 | the content of a simple message does not affect its verdict |
| MessageTypes.ConsistentEnvelopesPass | src/message_types.rs:43-128 | a message wrapped in an envelope that copies its checked fields passes its check |
| RadioTypes.NewRadioPayload | src/operator/radio_types.rs:29-34 | the constructor stores the identifier and the content it is given |
| RadioTypes.PayloadContent | src/operator/radio_types.rs:36-38 | putting back the content read from a payload rebuilds that payload |
| RadioTypes.NewThenContent | src/operator/radio_types.rs:29-38 | the content read from a new payload is the content it was built with |
| RadioTypes.RadioValidOuter | src/operator/radio_types.rs:42-52 | a radio payload is accepted iff its identifier equals the envelope's; rejection is `InvalidFields` |
| RadioTypes.RadioVerdictIgnoresContent | src/operator/radio_types.rs:42-52 | the content does not affect a radio payload's verdict |
| RadioConfig.WalletInput | src/config.rs:292-300 | it succeeds iff a private key or a mnemonic is set; the private key wins over the mnemonic; otherwise it fails with the missing-wallet validation error |
| RadioConfig.AgentIndexerAddress | src/config.rs:302-330 | it is the configured indexer address, or "none" when there is none |
| RadioConfig.AgentConfigArgs | src/config.rs:302-330 | the argument list for the agent configuration is built (no panic) iff a wallet input exists; it carries that wallet key, the indexer address, the radio name and the topics |
| RadioConfig.PrivateKeyWins | src/config.rs:292-300 | once a private key is set, the mnemonic does not change the wallet input |
| Lib.CloneWithInner | src/lib.rs:135-144 | trigger errors are copied as they are; every other error becomes `Others` of its display text |
| Lib.CloneKeepsText | src/lib.rs:119-144 | a clone is never `Agent` or `Query`, and its display text ends with the original's text |
| Lib.CloneOthersGrows | src/lib.rs:119-144 | cloning an `Others` error prefixes "Others: " again, so cloning twice changes the text again |
| Lib.Entries | src/lib.rs:75-88 | one entry per network |
| Lib.ChainheadBlockStr | src/lib.rs:75-88 | the loop builds the same text as the reference join |
| Lib.ChainheadSmallCases | src/lib.rs:75-88 | with no networks the text is `"{ "` followed directly by `" }"`; with one network it is `"{ network: number }"`, with no separator |
| Lib.ChainheadAppend | src/lib.rs:75-88 | one more network adds ", network: number" just before the closing brace |
| Lib.SyncingSubgraphs | src/lib.rs:56-71 | a hash is listed iff some status with that hash is syncing (its node is set and is not "removed"); the list is never longer than the input |
| Lib.SyncingDeploymentHashesAsWritten | src/lib.rs:56-71 | as written: the call panics iff the status query fails |
| Lib.SyncingDeploymentHashes | src/lib.rs:56-71 | corrected: a failed query gives no hashes; otherwise it gives exactly the syncing hashes |
| Lib.StatusQueryFailure | src/lib.rs:62-66 | for every query error, the as-written call panics and the corrected call returns the empty list |
| Lib.UnassignedNeverTopics | src/lib.rs:56-71 | a deployment with no assigned node, or with node "removed", is never a topic |
| Notifier.FromConfig | src/operator/notifier.rs:19-49 | the notifier takes the radio name and copies the Slack, Discord and Telegram settings from the configuration |
| Notifier.PlannedSends | src/operator/notifier.rs:51-83 | sends are planned in the order Slack, Discord, Telegram, and only for configured channels (Telegram needs both its token and its chat id); each send carries the radio name and the content |
| Notifier.Notify | src/operator/notifier.rs:51-83 | every planned send is attempted; there is at most one warning per send, and a channel is warned about iff its send failed |
| Notifier.FailedChannelsMeaning | src/operator/notifier.rs:51-83 | the warnings list a channel iff one of its sends failed, and never outnumber the sends |
| Notifier.SlackIffConfigured | src/operator/notifier.rs:35-83 | Slack is attempted iff a Slack webhook is configured |
| Notifier.FailuresDoNotStopLaterSends | src/operator/notifier.rs:51-83 | the sends attempted do not depend on which of them fail |
| Operation.Inc | src/operator/operation.rs:20-40 | exactly the counter for the given label goes up by one |
| Operation.RadioMsgHandler | src/operator/operation.rs:20-40 | a valid message bumps its identifier's validated counter and is forwarded only if the channel send succeeds; an invalid one bumps the invalidated counter for its error type and forwards nothing |
| Operation.HandleAllCounts | src/operator/operation.rs:20-40 | over any arrivals, each counter rises by the number of matching arrivals, and the channel receives the delivered messages in order |
| Operation.ValidatedCount | src/operator/operation.rs:20-40 | over any arrivals, one validated counter rises by the number of valid arrivals with its identifier |
| Operation.InvalidatedCount | src/operator/operation.rs:20-40 | over any arrivals, one invalidated counter rises by the number of invalid arrivals with its error type |
| Operation.ChannelContents | src/operator/operation.rs:20-40 | over any arrivals, the channel receives the valid messages whose send succeeded, in arrival order |
| Operation.OneCounterPerArrival | src/operator/operation.rs:20-40 | each arrival raises exactly one counter, by one, summed over both maps |
| Resolver.RowsBelowFacts | src/db/resolver.rs:56-76 | the rows below a bound are strictly ascending, and they are exactly the table's rows with an id in range |
| Resolver.AscendingIdsCard | src/db/resolver.rs:56-76 | rows with strictly ascending ids have as many distinct ids as rows |
| Resolver.AddMessage | src/db/resolver.rs:38-54 | the new id is the sequence's next value and is larger than every existing id; the row stores the message; the key set grows by exactly that id; old rows are unchanged; the sequence advances |
| Resolver.AddMessageGrows | src/db/resolver.rs:38-54 | an insert adds exactly one row |
| Resolver.ListMessages | src/db/resolver.rs:56-76 | the listing is strictly ascending by id and has one row per stored row |
| Resolver.ListMessagesLists | src/db/resolver.rs:56-76 | the listing holds exactly the table's rows, each with its stored message, and its ids are exactly the table's ids |
| Resolver.ListingFacts | src/db/resolver.rs:56-76 | the listing's ids are the table's key set, and its length is the row count |
| Resolver.RowListed | src/db/resolver.rs:56-76 | every stored row appears in the listing, with its message |
| Resolver.ToGraphQLRow | src/db/resolver.rs:25-27 | the GraphQL row keeps the id and the message |
| Resolver.ListRows | src/db/resolver.rs:78-97 | one GraphQL row per listed row, in the same order, with the same id and message |
| Resolver.MessageById | src/db/resolver.rs:99-116 | it succeeds iff the id is stored, returning that row; otherwise `RowNotFound` |
| Resolver.DeleteMessageById | src/db/resolver.rs:118-136 | it succeeds iff the id is stored; it returns the deleted row and removes exactly that id; other rows and the sequence are unchanged |
| Resolver.DeleteMessageAll | src/db/resolver.rs:138-154 | the table is emptied, the sequence is kept, and every former row is returned |
| Resolver.TopIds | src/db/resolver.rs:159-175 | the kept ids are the `min(max_storage, count)` largest ids |
| Resolver.SuffixIds | src/db/resolver.rs:159-175 | the last rows of an ascending listing have as many distinct ids as rows, and those ids lie above every other listed id |
| Resolver.RetainMaxStorage | src/db/resolver.rs:159-194 | a negative limit is an error; otherwise it keeps exactly the `min(max_storage, count)` newest rows, unchanged, and reports how many were deleted |
| Resolver.PruneOldMessages | src/db/resolver.rs:198-214 | the statement fails with the cast error, deleting nothing, iff some stored nonce exceeds the `bigint` range; otherwise exactly the rows whose nonce is below `now - retention*60` are deleted, and the count deleted is reported |
| Resolver.Distinct | src/db/resolver.rs:216-255 | duplicates are dropped and nothing else is |
| Resolver.MatchingAccounts | src/db/resolver.rs:221-235 | an account is listed iff some listed row from it passes the allow-list and has a nonce above the cutoff |
| Resolver.ListActiveIndexers | src/db/resolver.rs:216-255 | corrected: the distinct graph accounts of rows with nonce greater than `from`, restricted to the allow-list when one is given |
| Resolver.ListActiveIndexersAsWritten | src/db/resolver.rs:216-255 | as written: an empty allow-list produces SQL that does not parse; otherwise a stored nonce beyond the `bigint` range fails the cast; every other input agrees with the corrected query |
| Resolver.RowsBelowAgree | src/db/resolver.rs:56-76 | a listing depends only on the rows in its range |
| Resolver.RowsBelowExtend | src/db/resolver.rs:38-76 | storing a row at the top of the range appends it to the listing |
| Resolver.AddThenList | src/db/resolver.rs:38-76 | after an insert, the listing is the old listing plus the new row at the end |
| Resolver.AddAll | src/db/resolver.rs:38-54 | inserting a sequence of messages advances the id sequence by their number |
| Resolver.AddAllKeeps | src/db/resolver.rs:38-54 | later inserts neither add nor change rows with ids below the starting sequence value |
| Resolver.AddAllStores | src/db/resolver.rs:38-54 | the k-th inserted message is stored under the starting sequence value plus k |
| Resolver.Numbered | src/db/resolver.rs:38-54 | numbering gives one row per message |
| Resolver.NumberedAppend | src/db/resolver.rs:38-54 | numbering a concatenation numbers the second part from where the first part stopped |
| Resolver.AddAllThenList | src/db/resolver.rs:38-76 | after a batch of inserts, the listing is the old listing plus the batch, numbered consecutively in insertion order |
| Resolver.AddTwiceKeepsBoth | src/db/resolver.rs:38-54 | inserting the same message twice stores it under two distinct ids |
| Resolver.DeleteThenGet | src/db/resolver.rs:99-136 | after a delete, fetching the deleted id fails and fetching any other id gives what it gave before |
| Resolver.RetainZeroEmpties | src/db/resolver.rs:159-194 | retaining zero rows empties the table and reports every row as deleted |
| Resolver.RetainWithinLimit | src/db/resolver.rs:159-194 | a table already within the limit is left unchanged, with nothing deleted |
| Resolver.RetainTwice | src/db/resolver.rs:159-194 | retaining twice with the same limit deletes nothing the second time |
| Resolver.PruneKeepsCutoff | src/db/resolver.rs:198-214 | a row whose nonce equals the cutoff is kept by a prune that goes through (the comparison is strict) |
| Resolver.PruneTwice | src/db/resolver.rs:198-214 | after a prune that goes through, pruning again at the same instant goes through too and deletes nothing |
| Resolver.OversizedNonceBlocksPruning | src/db/resolver.rs:198-255 | once a message with a nonce beyond the `bigint` range is stored, every prune and every as-written active-indexer query fails |
| Resolver.ActiveExcludesBoundary | src/db/resolver.rs:221-235 | a row whose nonce equals `from` does not count as active |
| Resolver.ActiveIndexersMonotone | src/db/resolver.rs:216-255 | an earlier `from` never loses an active indexer |
| Resolver.AllowListRestricts | src/db/resolver.rs:216-255 | with an allow-list, the result is the unfiltered result restricted to that list |
| Resolver.EmptyAllowList | src/db/resolver.rs:216-255 | an empty allow-list is a syntax error as written, and gives the empty list once corrected |
| Operator.DecodeChain | src/operator/mod.rs:277-291 | decoding fails iff all three decoders fail; otherwise the first that succeeds, in the order POI, upgrade intent, simple, gives the stored message |
| Operator.LaterDecodersIgnored | src/operator/mod.rs:277-291 | once an earlier decoder succeeds, the later decoders do not matter |
| Operator.ProcessMessage | src/operator/mod.rs:277-291 | it succeeds iff the payload decodes and the insert does not fail; on success the table is the insert's and the id is the sequence's next value; on failure nothing changes; an undecodable payload is "Unsupported message types" |
| Operator.ProcessorStep | src/operator/mod.rs:252-291 | every delivery raises the received counter and records one outcome; a payload that does not decode is always rejected as "Unsupported message types", since decoding never awaits and the timeout cannot fire first; a decoded message times out, fails, or is stored under the sequence's next id |
| Operator.UndecodableIgnoresFault | src/operator/mod.rs:258-291 | for a payload that does not decode, the step is the same whether the insert would have completed, failed or timed out |
| Operator.RunProcessor | src/operator/mod.rs:252-275 | processing keeps the table valid |
| Operator.AcceptedOne | src/operator/mod.rs:252-291 | a delivery stores at most one message |
| Operator.ProcessorStepTable | src/operator/mod.rs:252-291 | a step either leaves the table unchanged or inserts the message it accepted |
| Operator.RunProcessorTable | src/operator/mod.rs:252-291 | after any deliveries, the received counter and the outcomes grow by their number, and the table is the old one with the accepted messages inserted in order |
| Operator.RunProcessorStores | src/operator/mod.rs:252-291 | the listing after processing is the old listing plus the accepted messages, numbered in arrival order |
| Operator.AcceptedTwice | src/operator/mod.rs:252-291 | a decodable payload delivered twice is accepted twice |
| Operator.RedeliveryStoredTwice | src/operator/mod.rs:252-291 | a redelivered message is stored as two rows with consecutive ids (there is no deduplication) |
| Operator.RetainStep | src/operator/mod.rs:176-189 | the max-storage pruning reports a count iff it completes and the query succeeds, and then its table and count are those of `retain_max_storage`; otherwise the table is unchanged |
| Operator.PruneStep | src/operator/mod.rs:191-205 | the retention pruning reports a count iff it completes and the query succeeds, and then its effect is the query's; otherwise the table is unchanged |
| Operator.RetainPhase | src/operator/mod.rs:176-189 | without `max_storage` nothing happens; with it there is exactly one max-storage call |
| Operator.GaugeAfterMeaning | src/operator/mod.rs:174-205 | the pruned gauge holds the running total once any call succeeds, and keeps its old value otherwise |
| Operator.SucceededTotal | src/operator/mod.rs:174-205 | the running total adds up the counts of the successful calls, so it is never negative when the counts are not |
| Operator.GaugeAfter | src/operator/mod.rs:174-205 | the pruned gauge moves only if some call succeeded, and after a successful last call it holds the grand total |
| Operator.NoneTotalZero | src/operator/mod.rs:174-205 | when no call succeeds, the running total is zero |
| Operator.SummaryTick | src/operator/mod.rs:167-220 | a set skip flag is cleared and the tick does nothing else; otherwise there is one retention call, preceded by a max-storage call when configured; the tick panics iff the count times out; the cached gauge takes the count when there is one and is unchanged otherwise; the skip flag ends cleared and the other counters are unchanged |
| Operator.SummaryTotals | src/operator/mod.rs:167-220 | the reported total is what the successful prune calls deleted; the pruned gauge shows it once any call succeeds, and keeps its old value, with a total of 0, when none does |
| Operator.SummaryWithoutMaxStorage | src/operator/mod.rs:174-205 | without `max_storage`: a retention prune that goes through sets the table, the total and the gauge; one that errs or times out leaves the table and the gauge as they were, with a total of 0 |
| Operator.SummaryWithMaxStorage | src/operator/mod.rs:174-205 | with `max_storage`: the retention prune runs on the retained table when the retain went through and on the original table otherwise; a failed call adds 0; when the retention prune fails the retained table stays, and the total and the gauge are the retain's count (the gauge is unchanged when both fail) |
| Operator.NetworkTick | src/operator/mod.rs:143-166 | without `filter_protocol == Some(true)` nothing changes; with it, a set skip flag is consumed, or the topics are refreshed |
| Operator.DailyTick | src/operator/mod.rs:221-241 | a set skip flag is consumed; otherwise exactly one aggregate run happens |
| Operator.Step | src/operator/mod.rs:136-248 | each event runs its own tick: a network update the network tick, a daily aggregate the daily tick, a summary update the summary tick (ending the loop iff it panics), and a timeout only sets the skip flag; every surviving step keeps the table valid |
| Operator.TimeoutSkipsNextTick | src/operator/mod.rs:136-248 | after an iteration timeout, the next tick that reads the flag clears it and does no work: no pruning, no aggregation, no topic refresh |
| Operator.SkipConsumedOnce | src/operator/mod.rs:167-220 | a timed-out iteration costs exactly one summary tick; the next tick prunes again |
| ServerModel.CeilDiv | src/server/model/mod.rs:171-184 | the result is the least `r` with `a <= b*r` |
| ServerModel.RowsCountOccurrences | src/server/model/mod.rs:158-169 | an account appears in the statistics iff it has at least one row |
| ServerModel.AddRow | src/server/model/mod.rs:158-169 | one fold step adds the row's account to the message-count keys |
| ServerModel.SumStep | src/server/model/mod.rs:158-169 | adding a row's count to its account's entry keeps a summing map equal to the per-account totals |
| ServerModel.CountStep | src/server/model/mod.rs:158-169 | appending a row to its account's list keeps one list entry per row |
| ServerModel.AbsentZero | src/server/model/mod.rs:158-169 | an account that does not occur has zero totals |
| ServerModel.AddRowTallies | src/server/model/mod.rs:158-169 | one fold step keeps the tallies equal to the per-account totals of the rows folded so far |
| ServerModel.Average | src/server/model/mod.rs:171-184 | an account without a count list is divided by 1 (`map_or(1, ..)`), an empty list gives 0, and otherwise the result is the rounded-up quotient of the total by the list length |
| ServerModel.QueryAggregateStats | src/server/model/mod.rs:140-194 | both maps have exactly the accounts of the statistics as keys; each account's message total is the sum over its rows; each average is the rounded-up quotient of its subgraph total by its row count; the covered count is passed through |
| ServerModel.ZeroRowsZeroTotal | src/server/model/mod.rs:158-169 | an account with no rows has zero totals |
| ServerModel.TotalAppend | src/server/model/mod.rs:158-169 | totals over a concatenation add up |
| ServerModel.TotalRemoveAt | src/server/model/mod.rs:158-169 | taking one row out takes out exactly its contribution |
| ServerModel.TotalOrderIndependent | src/server/model/mod.rs:158-169 | any rearrangement of the rows gives the same totals |
| ServerModel.AggregateOrderIndependent | src/server/model/mod.rs:140-194 | the summary does not depend on the order in which the rows are fetched |
| ServerModel.FromTimestamp | src/server/model/mod.rs:69-83 | the window starts `minutes_ago*60` seconds before now, and 1440 minutes (86400 seconds) before now by default |
| ServerModel.WiderWindowStartsEarlier | src/server/model/mod.rs:69-83 | more minutes give an earlier start |
| ServerModel.QueryActiveIndexers | src/server/model/mod.rs:69-83 | corrected: the result has no duplicates, and an account is in it iff some stored row from it passes the allow-list and is newer than the window start |
| ServerModel.QueryActiveIndexersAsWritten | src/server/model/mod.rs:69-83 | as written: the query fails with the SQL syntax error when the allow-list is empty, otherwise with the cast error when a stored nonce exceeds the `bigint` range, and otherwise returns the corrected result |
| ServerModel.WiderWindowMoreIndexers | src/server/model/mod.rs:69-83 | widening the window never loses an active indexer |
| GraphQLRoot.AsRadio | src/server/model/mod.rs:59-137 | a stored message reads as a radio message iff it is not an upgrade intent; the envelope fields are kept and the payload keeps its identifier and content |
| GraphQLRoot.DecodeAll | src/server/model/mod.rs:114-126 | decoding fails iff some message does not decode; otherwise it decodes each message in place |
| GraphQLRoot.ListingDecodes | src/db/resolver.rs:56-76 | some listed row fails to decode iff some stored row does |
| GraphQLRoot.QueryRows | src/server/model/mod.rs:59-67 | `rows` succeeds iff every stored row decodes, and then serves one row per stored row with the listing's ids and decoded messages |
| GraphQLRoot.QueryMessages | src/server/model/mod.rs:114-126 | `messages` succeeds iff every stored row decodes, and then serves the decoded messages in listing order |
| GraphQLRoot.MessagesAreRowMessages | src/server/model/mod.rs:59-126 | `messages` serves exactly the message column of what `rows` serves |
| GraphQLRoot.QueryRow | src/server/model/mod.rs:100-112 | `row` fails with row-not-found for a missing id, fails to decode an upgrade intent, and otherwise serves the id and the decoded message |
| GraphQLRoot.QueryMessage | src/server/model/mod.rs:128-138 | `message` is `row` without the id: the same three outcomes |
| GraphQLRoot.DeleteMessage | src/server/model/mod.rs:203-213 | `delete_message` removes the row even when it does not decode; a missing id leaves the table unchanged and is row-not-found |
| GraphQLRoot.DeleteMessages | src/server/model/mod.rs:215-227 | `delete_messages` empties the table in every case and returns what `messages` served just before |
| GraphQLRoot.DeleteThenQueryRow | src/server/model/mod.rs:100-213 | after `delete_message` the id is not found, and every other id reads as before |
| GraphQLRoot.StoredUpgradeBreaksListing | src/message_types.rs:98-114 | once an upgrade intent is stored, `rows` and `messages` fail to decode |
| Lib.DisplayNamesVariant | src/lib.rs:118-132 | equal display texts come from the same variant with the same inner text; for `CompareTrigger` only the deployment is shown |
| Lib.SyncingSubgraphsAppend | src/lib.rs:56-71 | the syncing hashes of concatenated statuses are the concatenation of their hashes, so input order is kept |
| Lib.SyncingSubgraphsSingle | src/lib.rs:56-71 | one status contributes its hash exactly when it is syncing |

## Left out

- Operator.ProcessMessage: the table's sequence has no gaps: a failed insert takes no id and ids follow one another. A Postgres BIGSERIAL loses the value taken by a failed INSERT and may skip values after crash recovery, so real ids are only increasing, not consecutive.
- Postgres itself, the connection pool and JSON (de)serialisation are not modelled. A stored message keeps only the envelope fields the queries read.
- Waku, the Graphcast SDK and protobuf decoding are not modelled. The three decoders are parameters of `Operator.DecodeChain`. Signature checks are not modelled either.
- Connection errors other than the ones named are not modelled. A failed insert is a boolean input, and each tick's faults are explicit inputs.
- A timeout is modelled as "nothing happened". A timeout that fires after the database has committed is not modelled.
- Concurrency is not modelled: the processor thread, the tokio `select!` over the three intervals, and the sleeps. The `skip_iteration` task is one event (`IterationTimeout`); in the program it sets the flag once, 180 seconds after start (src/operator/mod.rs:118-124), so it occurs at most once, while the proved properties hold for every order and number of events. Events are handled one at a time, in the order given.
- Prometheus metrics serving is not modelled. The pruned and cached gauges, the received counter and the validated and invalidated counters are plain state.
- The peer-count gauges of the network tick and `network_check` are not modelled.
- `count_messages`, `get_indexer_stats`, `insert_aggregate`, `fetch_aggregates` and `count_distinct_subgraphs` are not modelled. Their source file is not part of this model.
  - `query_indexer_stats` only forwards to `get_indexer_stats`, so it is left out too.
  - The daily tick's aggregate insertions are one counted run (`aggregateRuns`).
  - The statistics rows that `query_aggregate_stats` folds over are an input.
- `prune_old_messages` takes two arguments, but the summary tick passes three (a `batch_size` of 1000). The model calls the two-argument query.
- `health_check`, schema building, routes and the HTTP server are not modelled.
- GraphQLRoot.AsRadio: serde is not modelled. The model assumes, from the derived `Deserialize` of the three payload types, that a stored POI or simple message reads as a radio payload message and an upgrade intent does not. The `GraphcastMessage` envelope's own serde is part of the SDK and is not part of this model.
- GraphQLRoot.DeleteMessage and GraphQLRoot.DeleteMessages: assume that Postgres commits the `DELETE ... RETURNING` before the client decodes the returned rows, so a decoding failure does not undo the deletion.
- src/main.rs (startup, the shutdown signal, wiring of the channels) and `Operator::new` are not modelled: they are I/O setup.
- `active_allocation_hashes` is not modelled. Only the status filter of `syncing_deployment_hashes` is, and the query itself is an input.
- Row order is not modelled where SQL leaves it unspecified. `DISTINCT` in `list_active_indexers` and the `RETURNING` rows of the deletes come back in no particular order. The model returns ascending id order and states membership. The iteration order of `HashMap` in the aggregate summary is not modelled either: the maps are Dafny maps.
- The message and subgraph counts are naturals, where the source uses `i64`. The counts come from SQL `COUNT`, so they are never negative.
- Floating point is not modelled. The source computes the averages with `f64` and `ceil`; the model uses exact integer ceiling division, which agrees while the counts stay below 2^53.
- ServerModel.FromTimestamp: does not model the `u64` overflow of `minutes_ago * 60`, nor the panic of `Duration` arithmetic on an out-of-range window, because integers are unbounded here.
- Resolver.AddMessage: does not model exhaustion of the 64-bit id sequence, because integers are unbounded here.
- Resolver.RetainMaxStorage: takes the limit as an unbounded integer. The source's cast from `i32` through `usize` to `i64` gives back the same value, so a negative configured limit reaches Postgres as a negative `LIMIT`, which is the modelled error.
- Resolver.PruneOldMessages: the retention cutoff `now - retention*60` is computed without `i64` overflow.
- Resolver.ListActiveIndexersAsWritten: fails on any stored nonce beyond the `bigint` range. With an allow-list, Postgres may test the account before casting, so a row the list rejects might not fail the query; the model does not follow the planner's choice.
- Resolver.ListActiveIndexers and ServerModel.QueryActiveIndexers: the corrected queries compare nonces as unbounded integers, so they never fail the `bigint` cast; only the as-written members keep that failure.
- RadioConfig.AgentConfigArgs: the SDK constructor `GraphcastAgentConfig::new` can itself fail, and that failure is not modelled: the member stops at the argument list.
- Notifier.Notify: the HTTP requests are not modelled. Whether each send succeeds is a parameter.
- Lib.ChainheadBlockStr: the block pointers come from the SDK, and the `HashMap` iteration order is an input sequence. Only the text format is modelled.

## Findings

| source | as written | input that shows it | evidently intended | confidence | as-written member | corrected member |
|---|---|---|---|---|---|---|
| src/db/resolver.rs:216-255 | with `Some(indexers)` the query appends `AND graph_account IN (` followed by one placeholder per indexer | `indexers = Some(vec![])`: the SQL ends in `IN ()`, which Postgres rejects as a syntax error, and the GraphQL query `query_active_indexers(indexers: [])` passes that error on | an empty allow-list matches no indexer, so the result is the empty list | not executed | Resolver.ListActiveIndexersAsWritten, ServerModel.QueryActiveIndexersAsWritten | Resolver.ListActiveIndexers, ServerModel.QueryActiveIndexers |
| src/lib.rs:56-71 | the indexing-status query result goes through `map_err(..)` and then `.unwrap()` | any error from the status query makes the call panic instead of returning | a failed status query yields no syncing deployments: the `map_err` closure builds exactly that empty list as its fallback | not executed | Lib.SyncingDeploymentHashesAsWritten | Lib.SyncingDeploymentHashes |
