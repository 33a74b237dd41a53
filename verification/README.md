# Verified models of SnowAPI's core algorithms

SnowAPI is a gateway for model APIs written in Go. This project models the parts of it that hold state
or decide something non-trivial, and proves what they keep. `dafny verify dfyconfig.toml` checks all of it.

| file | what it models |
|---|---|
| `OrderLock.dfy` | the reference-counted lock per trade number, as an interleaving step system |
| `Settlement.dfy`, `Conservation.dfy` | payment notifications, manual completion and expiry of top-up and subscription orders, on top of that lock, and where the quota of a paid order goes |
| `PriceDifferences.dfy`, `Pricing.dfy` | the comparison of local prices with those of upstream channels |
| `ModelsDev.dfy` | the choice of one price per model among the providers of models.dev |
| `MultiKey.dfy`, `MultiKeyRuns.dfy`, `KeyRecords.dfy`, `KeyStore.dfy` | the stored key string of a multi-key channel with its three index-keyed maps, against a plain list of records |
| `UpstreamSync.dfy`, `ModelNames.dfy` | detecting and applying changes of an upstream's model list |
| `ChannelScan.dfy` | the batched scan over all enabled channels |
| `RateLimiter.dfy` | the in-memory sliding-window rate limiter with its purge |
| `OggScan.dfy` | the Ogg page scanner that finds the duration of an Opus file |
| `BodyStorage.dfy` | request bodies in memory or on disk, and the usage counters |
| `RouteTable.dfy`, `PathTemplate.dfy` | validation of and lookup in the advanced route table |
| `RedisHash.dfy` | structs written to and read from Redis hashes |
| `StepUp.dfy` | the passkey step-up verification kept in the session |
| `Text.dfy`, `Prelude.dfy` | Go's string functions, `Option` and `Result` |

Code that changes state is a class or a loop, proved against a specification function; what the source promises
is then proved about those functions, for all inputs or all runs; sections headed "in plain terms" say what each
of them means in literal values, without naming it again. Clocks, file failures, regular expressions,
URL and JSON parsing and the outcome of database calls are parameters.

Where a promise does not hold for every input, the project keeps the code as it is and says when it holds:

* A new channel follows the plain list of its keys on every run of actions if and only if the keys, and every list
  that deletions can leave of them, survive being joined into one string and read again
  (`MultiKeyRuns.CreatedFollowsIff`). A list does so if and only if no key spans lines, its first and last key are not
  empty, and the whole is not read as a JSON array (`KeyStore.KeysSurviveIff`). A key with a line break, as an element
  of a JSON array may have, breaks it from the start: it is stored as one key and read as two, and MultiKeySize covers
  only the first (`MultiKeyRuns.BrokenElement`).
* From any stored state, where MultiKeySize may differ from the number of keys that are read, the channel follows the
  list on every run if and only if it has no keys, or MultiKeySize covers them, keys it more than covers survive being
  stored again, and every list that deletions can leave is storable (`MultiKeyRuns.EveryRunIff`; for one action
  `StepExactIff`, for one run `RunSimulates`). With two keys or more the last condition means that no key is empty or
  spans lines and no proper part of the keys is read as a JSON array (`SublistsStorableIff`); lists of keys that are
  one line, not blank and do not start with `[` always meet it (`PlainSublists`), a blank line between keys does not
  (`BlankLineRevives`, `BlankLineShifts`).
* After an update MultiKeySize is the number of keys if and only if the stored string is not an empty JSON array
  (`MultiKeyRuns.UpdatedRecords`, `EmptyArray`).
* Deleting the auto-disabled keys of a channel deletes none and enables all but the first of them if no key or only
  an empty one would be left, because an update with an empty key keeps the stored ones
  (`MultiKeyRuns.DeleteDisabledRevives`, exactly when: `MultiKeyRuns.DeleteDisabledExactIff`).
* A marked top-up order ends without its quota if and only if the database reported an error for the mark or did not
  add the quota (`Conservation.CreditedUnlessLost`).
* A body takes disk usage beyond its maximum if and only if its declared length goes to disk and fits, and the stream
  delivers more than that (`BodyStorage.OverrunIff`).
* A top-up order is marked once, when it is pending. The row of a subscription order can be marked after it expired,
  and a second time when the subscription is granted (`Settlement.ExpiredThenMarked`, `Settlement.MarkedTwice`,
  exactly when: `Settlement.MarkFindsPendingIff`); it never adds quota.
* The documentation of the models.dev conversion promises the cheapest non-zero price. A provider whose name sorts
  earlier wins with a price up to 1e-9 above it (`ModelsDev.CheapestIff`, in terms of the running selection). In
  terms of prices alone: the cheapest is selected whenever all others are 1e-9 or more above it
  (`ModelsDev.CheapestWhenApart`), and otherwise the provider names decide (`ModelsDev.NamesMatter`).
* A real price difference is reported if and only if some channel, the last of its name, has a value of its own
  there, or has none or null there while there is a local one and has a value of its own somewhere else; a value of
  its own is not null, not the word "same" and not the local one (`PriceDifferences.ReportedExactIff`).
* Detecting again after applying everything finds nothing, unless a new name has a comma or is spelled like an
  ignore rule that is still needed (`UpstreamSync.SettledIff`).
* The limiter is exact if and only if it is not purged or no window outlasts the purge expiration by more than a
  second (`RateLimiter.ExactIffWindowsExpire`); a limit of 0 acts as a limit of 1.
* Memory and disk storage differ on an empty read at the end (`BodyStorage.SameRepliesIff`).
* A path template also accepts a shorter request in which its two halves overlap
  (`PathTemplate.TemplateMatchesIff`).
* A passkey deletion that passes its check is backed by an assertion of the same user if and only if no other user
  logged in last in between: a login leaves the verification standing (`StepUp.DeletionByOwnerIff`).

## Model

| member | source | states |
|---|---|---|
| `OrderLock.StepInv` | controller/topup.go:192-232 | every step of every thread keeps: createLock has one holder, pointers agree with the map, owners are inside their section, counts are exact, no entry without a user |
| `OrderLock.MutualExclusion` | controller/topup.go:203-232 | after any run of any number of threads at most one is between LockOrder and the unlock for a trade number |
| `OrderLock.CountsExact` | controller/topup.go:197-216 | after any run each entry's count is the number of threads waiting on, holding or releasing it, and no free mutex was ever unlocked |
| `OrderLock.LoadFindsOwnMutex` | controller/topup.go:218-224 | the Load outside createLock always finds the mutex the thread itself locked and still owns |
| `OrderLock.LastOneOut` | controller/topup.go:225-231 | an entry is deleted only when no other thread points at it |
| `OrderLock.NeverStuck` | controller/topup.go:203-232 | while a thread is inside LockOrder or UnlockOrder, some thread can take a step |
| `OrderLock.SchedulesDrain` | controller/topup.go:203-232 | without new calls every schedule takes exactly the remaining steps, so there is no livelock |
| `OrderLock.AlwaysDrains` | controller/topup.go:203-232 | from every reachable state a schedule without new calls can stop only with all threads idle and the map empty |
| `OrderLock.CanFinish` | controller/topup.go:203-232 | from every reachable state some run lets all threads finish |
| `OrderLock.EmptyWhenIdle` | controller/topup.go:225-231 | the map is empty whenever all threads are idle |
| `Settlement.StepInv` | controller/topup.go:297-332 | every step, with any database failure, keeps the books: a handler past its read still sees its order untouched, except that a subscription order may have expired |
| `Settlement.CreditedAtMostOnce` | controller/topup.go:297-332 | in every run of deliveries, manual completions, subscription completions and expiries each order is credited at most once, with its own amount and user, after its mark; a top-up order is marked at most once, going from pending to success |
| `Conservation.MarksAccounted` | controller/topup.go:316-331 | after every run each mark of an order is a credit, a grant, a credit lost to a failure, or one whose handler is still on its way |
| `Conservation.CreditedUnlessLost` | controller/topup.go:316-331 | once all threads are idle a top-up order is marked without its credit if and only if a failure lost it; without failures every marked order was credited exactly once |
| `Settlement.GrantedAtMostOnce` | model/subscription.go:910-1002 | a subscription is granted at most once, exactly if its order ends paid, and its trade number never adds quota |
| `Settlement.MarkFindsPendingIff` | model/subscription.go:1014-1047 | a mark finds its order pending if and only if the order has a row, is not marked yet and is no expired subscription order |
| `Settlement.ExpiredThenMarked` | model/subscription.go:1050-1076 | a run in which a subscription order expires between the webhook's read and write |
| `Settlement.MarkedTwice` | model/subscription.go:1014-1047 | a run in which the row of a subscription order is marked twice, crediting nothing |
| `Settlement.WritesHoldTheLock` | controller/topup.go:297-332 | a mark, credit or grant of an order is made only by the thread that holds its lock, alone |
| `Settlement.SuccessIsFinal` | controller/topup.go:297-332 | a top-up row that says success stays so, whatever notification, completion or expiry follows |
| `Settlement.SubscriptionKeepsBooks` | model/subscription.go:930-990 | completing a subscription order, with its upserted top-up row, keeps the books |
| `Settlement.ExpireKeepsBooks` | model/subscription.go:1050-1076 | so does expiring one without the lock |
| `Settlement.FetchKeepsBooks` | model/topup.go:264-330 | reading the order, and the transaction of the manual completion, keep the books |
| `Settlement.AdminCompletes` | model/topup.go:264-316 | a manual completion that reaches the database marks a pending order of a positive amount and credits 500000 per unit to its user, and otherwise changes nothing |
| `Settlement.WebhookCompletes` | controller/topup.go:300-331 | a notification whose database calls succeed marks a pending order of provider "epay" with the paid method and credits 500000 per unit, and otherwise changes nothing |
| `Settlement.SubscriptionCompletes` | model/subscription.go:926-990 | a subscription notification marks or adds the row, grants the subscription and records the method, puts a stale checkout up for review, and otherwise changes nothing |
| `Settlement.ExpiryCloses` | model/subscription.go:1050-1076 | expiring closes an open order of provider "epay" and its row, if that is pending, and nothing else |
| `Settlement.UnreachableEnds` | controller/topup.go:300-304 | without the database a handler only ends |
| `Settlement.NeverStuck` | controller/topup.go:440-456 | a busy handler never blocks a run |
| `PriceDifferences.BuildDifferences` | controller/ratio_sync.go:536-696 | for every input the report is exactly the expected one: an entry where a channel deviates and a column is worth showing, with one column per channel that differs anywhere, and no model without entries |
| `PriceDifferences.Confidence` | controller/ratio_sync.go:566-597 | a model is untrusted exactly if both ratios are present and nearly 37.5 and 1 |
| `PriceDifferences.CompareField` | controller/ratio_sync.go:599-651 | one cell of the comparison before pruning |
| `PriceDifferences.MarkedAreDiffering` | controller/ratio_sync.go:654-663 | the channels marked in the first pass are those with a value of their own anywhere |
| `PriceDifferences.PrunedIsExpected` | controller/ratio_sync.go:665-693 | the second pass leaves exactly the expected entries |
| `PriceDifferences.ReportedExactIff` | controller/ratio_sync.go:536-696 | on every input an entry is reported if and only if it has a real difference and some channel, the last of its name, has an own value there, or lacks the value while there is a local one and has an own value anywhere |
| `PriceDifferences.ReportedBetween` | controller/ratio_sync.go:654-693 | an own value is always reported, and only real differences are |
| `PriceDifferences.ReportedIff` | controller/ratio_sync.go:536-696 | with distinct names and, in the compared fields, no null and no "same", an entry is reported if and only if some channel has a value there and the local one is absent or differs |
| `PriceDifferences.ColumnsIff` | controller/ratio_sync.go:536-696 | on such input the columns of every entry are the channels with a difference somewhere, and Confidence has the same columns |
| `PriceDifferences.NullExample` | controller/ratio_sync.go:654-663 | an instance: a null in place of a local value, from a channel without an own value anywhere, is not reported |
| `PriceDifferences.NullReportedExample` | controller/ratio_sync.go:665-693 | an instance: the same null is reported if the channel has an own value in another field |
| `PriceDifferences.SameExample` | controller/ratio_sync.go:665-687 | an instance: the value "same" where there is no local one is not reported |
| `PriceDifferences.DuplicateExample` | controller/ratio_sync.go:633-635 | an instance: an only value hidden by a later, empty channel of the same name is not reported |
| `PriceDifferences.NumbersReportedIff` | controller/ratio_sync.go:48-63 | with one channel two numbers are reported, with the channel's one in its column, if and only if they are 1e-9 or more apart |
| `PriceDifferences.IntegersReportedIff` | controller/ratio_sync.go:77-132 | an integer and the same number are no difference in the eight numeric fields, and one elsewhere |
| `PriceDifferences.TextsReportedIff` | controller/ratio_sync.go:55-63 | texts and flags are reported exactly if they are unequal |
| `PriceDifferences.NewModelReported` | controller/ratio_sync.go:627-651 | a number for a model without a local value is reported |
| `PriceDifferences.UntrustedIff` | controller/ratio_sync.go:577-590 | a source is untrusted for a model exactly if its ratio is within 1e-9 of 37.5 and its completion ratio within 1e-9 of 1 |
| `ModelsDev.SelectCandidates` | controller/ratio_sync.go:915-944 | whatever the map iteration order, each model gets the winner of its candidates by provider name; it is an actual candidate, non-zero if any is, below every non-zero price plus 1e-9, and of equal prices the first provider's; a model without one has no candidate |
| `ModelsDev.SortedUnique` | controller/ratio_sync.go:915-919 | only one sorted list has given keys, so iteration order is lost |
| `ModelsDev.WinnerNotBeaten` | controller/ratio_sync.go:881-894 | although the comparison is not transitive, no displaced candidate beats the winner by 1e-9 or more |
| `ModelsDev.CheapestIff` | controller/ratio_sync.go:896-905 | the selection has the lowest non-zero price if and only if what is selected when its first bearer is reached does not cost less than it plus 1e-9 |
| `ModelsDev.CheapestWhenApart` | controller/ratio_sync.go:896-905 | prices 1e-9 or more apart give the cheapest |
| `ModelsDev.NotTheCheapest` | controller/ratio_sync.go:881-894 | two prices of which the dearer one is selected |
| `ModelsDev.NamesMatter` | controller/ratio_sync.go:47-53 | the same three prices under other provider names, another price |
| `ModelsDev.OfferIff` | controller/ratio_sync.go:845-879 | which costs make a candidate, and what it keeps of them |
| `ModelsDev.SelectedPrice` | controller/ratio_sync.go:915-944 | a selected price stands in the catalogue and is below every non-zero price on offer plus 1e-9 |
| `ModelsDev.FirstDifference` | controller/ratio_sync.go:919-919 | names are ordered by their first difference, a prefix first |
| `KeyStore.KeysSurviveIff` | model/channel.go:193-215 | a key list joined by newlines is read back as it was if and only if no key spans lines, the outer keys are not empty, and the lines are not read as a JSON array |
| `KeyStore.PlainStorable` | model/channel.go:193-215 | lists of keys that are one line, not blank and not starting with "[" are read back, whatever the JSON parser |
| `KeyStore.JoinedEmptyIff` | controller/channel.go:1802-1802 | a list is stored as the empty string only if it is empty or one empty key |
| `KeyStore.ArrayRead` | model/channel.go:200-211 | a key string that starts with a bracket is read as a JSON array where it is one |
| `KeyStore.LinesRead` | model/channel.go:212-214 | otherwise its lines are the keys, line breaks around them aside |
| `MultiKey.Channel.Run` | controller/channel.go:1585-1888 | any run of actions, from any stored state, leaves what the specification of the stored string and maps says |
| `MultiKeyRuns.CreatedFollowsIff` | controller/channel.go:607-633 | a new channel follows the list of its keys on every run if and only if the keys and every list that deletions can leave of them are storable |
| `MultiKeyRuns.EveryRunIff` | controller/channel.go:1585-1888 | from any stored state every run follows the list of records read, if and only if there are none, or MultiKeySize covers the keys, survives storing them again where it exceeds them, and every list that deletions can leave is storable |
| `MultiKeyRuns.RunSimulates` | controller/channel.go:1585-1888 | from any stored state a run is step by step the same run on the list of records if and only if each action fits; then a MultiKeySize that is the key count, and maps within it, stay so |
| `MultiKeyRuns.StepExactIff` | controller/channel.go:1585-1888 | in any stored state one action does to the channel what it does to the records if and only if it fits: single keys lie below MultiKeySize and the keys it leaves are storable |
| `MultiKeyRuns.UpdatedRecords` | model/channel.go:544-591 | what an update leaves to be read; MultiKeySize is then the key count if and only if the stored string is not an empty JSON array |
| `MultiKeyRuns.SublistsStorableIff` | controller/channel.go:1741-1888 | with two keys or more all deletions leave storable keys if and only if no key is empty or spans lines and no proper part is read as an array |
| `MultiKeyRuns.PlainSublists` | controller/channel.go:1741-1888 | plain keys always leave storable lists |
| `MultiKeyRuns.BrokenElement` | controller/channel.go:610-620 | a key with a line break is stored as one and read as two, of which the second can be neither disabled nor deleted |
| `MultiKeyRuns.EmptyArray` | model/channel.go:557-574 | an empty array in place of the keys reads as no key and counts as one |
| `MultiKey.Channel.constructor` | controller/channel.go:607-633 | a new channel joins and counts its keys |
| `MultiKey.Channel.DisableKey` | controller/channel.go:1585-1627 | disables the key at an index below MultiKeySize, else nothing |
| `MultiKey.Channel.EnableKey` | controller/channel.go:1628-1669 | enables the key at an index below MultiKeySize and forgets its disable data |
| `MultiKey.Channel.EnableAllKeys` | controller/channel.go:1670-1693 | empties all three maps |
| `MultiKey.Channel.DisableAllKeys` | controller/channel.go:1694-1740 | disables the enabled keys below MultiKeySize and leaves the others |
| `MultiKey.Channel.DeleteKey` | controller/channel.go:1741-1820 | stores the other records, unless none is left |
| `MultiKey.Channel.DeleteDisabledKeys` | controller/channel.go:1821-1888 | stores the records that are not auto-disabled, and how many are |
| `MultiKey.Without` | controller/channel.go:1764-1792 | re-indexing gives every surviving key its own status, time and reason, and nothing else |
| `MultiKey.WithoutAutoDisabled` | controller/channel.go:1822-1860 | the same for the keys that are not auto-disabled; enabled ones lose old disable data |
| `MultiKey.Channel.KeyStatus` | controller/channel.go:1471-1583 | the counts over all keys, and the wanted page of the lines of the wanted status |
| `KeyRecords.PagesShowAll` | controller/channel.go:1542-1566 | leafing through all pages shows every such line once, in order |
| `MultiKey.Channel.Update` | model/channel.go:544-591 | an empty key string keeps the stored one, the size is counted again from the string, statuses beyond it are dropped |
| `MultiKey.Channel.ReportKey` | model/channel.go:659-709 | a failing or recovered key changes the first record with that key; the channel goes down with its last enabled key, noting reason and time |
| `MultiKeyRuns.ChannelAfterReport` | model/channel.go:680-708 | after a report for a known key the channel is auto-disabled, with a note, exactly if no key is enabled any more; a recovered key enables it; otherwise its status and note stay |
| `MultiKeyRuns.ChannelWithoutKey` | model/channel.go:660-679 | what a report for an unknown key, for no key, or for a channel without keys does |
| `MultiKeyRuns.UpdatedKeeps` | model/channel.go:576-586 | an update drops the statuses from MultiKeySize on and nothing else |
| `KeyRecords.SingleKeyActions` | controller/channel.go:1585-1669 | disabling sets status 2 and keeps time and reason, enabling sets status 1 and forgets them, at one index only |
| `KeyRecords.AllKeyActions` | controller/channel.go:1670-1740 | all keys are enabled and forget their data; or those of status 1 get status 2 |
| `KeyRecords.ReportAction` | model/channel.go:664-698 | the first record of the key gets status, time and reason |
| `KeyRecords.SurvivorsAre` | controller/channel.go:1829-1858 | exactly the records of another status than 3 stay |
| `KeyRecords.LineShows` | controller/channel.go:1484-1530 | what a line of the listing shows of a record |
| `KeyRecords.PageShown` | controller/channel.go:1473-1566 | page and size are brought into range, and the rows are those of that page |
| `MultiKeyRuns.DeleteKeyExactIff` | controller/channel.go:1741-1820 | with several keys exactly one line of the listing disappears if and only if the index lies below MultiKeySize and the other keys are storable |
| `MultiKeyRuns.LastKeyStays` | controller/channel.go:1794-1800 | the only key is not deleted; at an index beyond it, where MultiKeySize allows one, it is stored again |
| `MultiKeyRuns.DeleteDisabledExactIff` | controller/channel.go:1821-1888 | exactly the auto-disabled lines disappear if and only if there are none, or other keys are left and are storable |
| `MultiKeyRuns.DeleteDisabledRevives` | controller/channel.go:1821-1888 | if no key or only an empty one would be left, all keys stay and all but the first are enabled |
| `MultiKeyRuns.BlankLineRevives` | controller/channel.go:1821-1888 | two auto-disabled keys around a blank line both come back enabled |
| `MultiKeyRuns.BlankLineShifts` | controller/channel.go:1802-1806 | deleting the key before a blank line enables the disabled key behind it and leaves an index beyond MultiKeySize |
| `MultiKeyRuns.NeverErased` | controller/channel.go:1585-1888 | no run erases the stored keys, and the list reads empty only if they are an empty JSON array |
| `MultiKeyRuns.NeverEmptied` | controller/channel.go:1585-1888 | no run of actions empties the list of records |
| `ModelNames.NormalizeNormal` | controller/channel_upstream_update.go:93-98 | the result is trimmed and duplicate-free, and such a list is left alone |
| `ModelNames.NormalizeSnoc` | controller/channel_upstream_update.go:93-98 | each further name is trimmed and added at the end unless it is empty or there already |
| `Text.TrimSpaceStrips` | controller/channel_upstream_update.go:93-98 | trimming takes off the white space at both ends and nothing else |
| `ModelNames.MergeModelNames` | controller/channel_upstream_update.go:100-114 | the loop yields the first list followed by the new names of the second |
| `ModelNames.ApplySelectedMeaning` | controller/channel_upstream_update.go:138-143 | the new list is duplicate-free, is old minus removed in order followed by the added, and never loses an added name |
| `ModelNames.StoredNamesIff` | model/channel.go:307-312 | a name list survives storing if and only if no name has a comma |
| `UpstreamSync.Collect` | controller/channel_upstream_update.go:172-231 | to add, in upstream's order: what is neither served nor a redirect target nor ignored; to remove, in local order: what upstream lacks, unless it is a redirect source |
| `UpstreamSync.IgnoresIff` | controller/channel_upstream_update.go:206-215 | a rule "regex:p" ignores what p matches, trimmed; any other rule the name that it is |
| `UpstreamSync.Channel.Detect` | controller/channel_upstream_update.go:356-403 | a forced check records what is pending and changes neither models nor ignore list; a failed fetch changes only the time |
| `UpstreamSync.Channel.DetectAndAdd` | controller/channel_upstream_update.go:373-388 | auto-sync appends all pending additions and counts them |
| `UpstreamSync.Channel.Apply` | controller/channel_upstream_update.go:802-850 | the whole new state after a partial request: models, ignore list, what stays pending |
| `UpstreamSync.AddedIsServed` | controller/channel_upstream_update.go:819-834 | whatever is requested, the new model list is duplicate-free, and an added name is in it and not ignored |
| `UpstreamSync.AppliedMeans` | controller/channel_upstream_update.go:815-841 | which names are added, removed, served, still pending and ignored after a request, name by name |
| `UpstreamSync.AppliedOrder` | controller/channel_upstream_update.go:138-143 | what stays keeps its order, and the new names follow in the order asked for |
| `UpstreamSync.AdditionsSplit` | controller/channel_upstream_update.go:816-838 | pending additions are the disjoint union of handled and remaining ones |
| `UpstreamSync.RemovalsSplit` | controller/channel_upstream_update.go:818-838 | pending removals are the disjoint union of removed and remaining ones |
| `UpstreamSync.SettledIff` | controller/channel_upstream_update.go:172-231 | detect, apply all, detect leaves nothing pending if and only if the new names are comma-free and no needed ignore rule is lost |
| `UpstreamSync.DetectApplyDetect` | controller/channel_upstream_update.go:869-945 | the same on the channel object |
| `UpstreamSync.PlainNamesLoseNoRule` | controller/channel_upstream_update.go:831-834 | if no upstream name starts with "regex:" no rule is lost |
| `UpstreamSync.LostRuleExample` | controller/channel_upstream_update.go:831-834 | a new name that takes a needed rule off the ignore list |
| `ChannelScan.Scan` | controller/channel_upstream_update.go:556-644 | over any table with distinct positive ids and any batch size the scan terminates and visits a prefix of the enabled channels in ascending order: all of them, unless it is cancelled, at once, or a query fails |
| `ChannelScan.EnabledMeaning` | controller/channel_upstream_update.go:565-572 | that list is every enabled row once, ascending |
| `ChannelScan.BatchIsNext` | controller/channel_upstream_update.go:856-867 | the query behind a cursor returns the next channels of that list |
| `ChannelScan.FullLastBatch` | controller/channel_upstream_update.go:579-581 | a row count that is a multiple of the batch size ends with one empty query |
| `RateLimiter.InMemoryRateLimiter.Request` | common/rate-limit.go:45-70 | answer and new queue of one call |
| `RateLimiter.InMemoryRateLimiter.ClearExpiredItems` | common/rate-limit.go:28-42 | one purge drops exactly the expired keys |
| `RateLimiter.Drive` | common/rate-limit.go:28-70 | the object answers every run as the specification does |
| `RateLimiter.RunAgrees` | common/rate-limit.go:28-70 | on every run, with purges at any moment if no window outlasts the expiration, the bounded queue admits exactly what a limiter with full history admits |
| `RateLimiter.ExactIffWindowsExpire` | common/rate-limit.go:14-70 | it is exact on all runs if and only if no purge is started or no window outlasts the expiration by more than a second |
| `RateLimiter.PurgeForgets` | common/rate-limit.go:34-38 | a run on which the purge forgets an admission of a longer window |
| `RateLimiter.WindowNeverOverfull` | common/rate-limit.go:45-70 | any admission and the one `limit` places later are at least the duration apart |
| `RateLimiter.ReferenceIff` | common/rate-limit.go:45-70 | the full-history limiter admits a request exactly if fewer admissions than the limit, at least one, are less than the duration old |
| `OggScan.GetOpusDuration` | common/audio.go:196-254 | the loop terminates on every byte string, returns the scanned granule position over 48000, and takes pages exactly where the scan does |
| `OggScan.ReadPage` | common/audio.go:207-246 | one round: resynchronises by a byte, or passes a page, or stops |
| `OggScan.PageSize` | common/audio.go:237-242 | the segment table is summed up |
| `OggScan.ScanOfFile` | common/audio.go:196-254 | on any serialised page list the pages taken are exactly the page boundaries and the result is the largest non-negative granule position, or 0 |
| `OggScan.LittleEndianRoundTrip` | common/audio.go:222-226 | reading a granule position inverts writing it |
| `OggScan.SerializedPage` | common/audio.go:207-242 | a serialised page is read as one page with its signed granule position |
| `OggScan.OneSecond` | common/audio.go:207-252 | the bytes of a page with granule position 48000 play for one second |
| `OggScan.LittleEndianWeights` | common/audio.go:222-226 | byte i of a granule position weighs 256 to the i |
| `OggScan.NegativeGranule` | common/audio.go:222-226 | a granule position with its top bit set is negative |
| `OggScan.JunkPrefixIgnored` | common/audio.go:215-220 | bytes in front in which no capture pattern starts leave the result alone and move the pages taken by their number |
| `OggScan.DamagedFile` | common/audio.go:196-254 | with junk before and a stump behind the pages the result is their largest granule, and the pages taken are exactly their boundaries |
| `BodyStorage.MemoryStorage.Call` | common/body_storage.go:47-81 | every call on the memory back end answers and moves the cursor as specified; only the first close is counted |
| `BodyStorage.DiskStorage.Call` | common/body_storage.go:169-230 | the same on disk; Bytes returns the whole body and restores the cursor |
| `BodyStorage.ReadGets` | common/body_storage.go:47-176 | a read below the end gets the next bytes, as many as asked for and there, and moves the cursor behind them |
| `BodyStorage.SeekGoes` | common/body_storage.go:56-185 | a seek goes to the offset from start, cursor or end, but not before the start |
| `BodyStorage.BytesAndClose` | common/body_storage.go:65-230 | Bytes gives the whole content and leaves the cursor; after Close every other call fails |
| `BodyStorage.ReadMemoryToEnd` | common/body_storage.go:47-54 | reads of any positive sizes deliver the rest of the body, each byte once and in order |
| `BodyStorage.ReadDiskToEnd` | common/body_storage.go:169-176 | the same on disk |
| `BodyStorage.SameRepliesIff` | common/body_storage.go:47-230 | both back ends give the same replies to a run if and only if it has no empty read at the end |
| `BodyStorage.DriveBoth` | common/body_storage.go:47-230 | the same on the two objects |
| `BodyStorage.CreateBodyStorage` | common/body_storage.go:241-259 | where a body goes, its content and the counters |
| `BodyStorage.CreateFromReader` | common/body_storage.go:262-303 | the body is the whole stream, or there is none and nothing is counted |
| `BodyStorage.TooLargeIff` | common/body_storage.go:262-303 | with a working disk creation fails exactly for streams longer than the limit |
| `BodyStorage.PlacedOnDiskIff` | common/body_storage.go:241-303 | when a body goes to disk, and when creation fails for want of a file |
| `BodyStorage.CountersExact` | common/disk_cache_config.go:109-134 | after every run of creating and closing the counters are number and size of the open storages |
| `BodyStorage.ClampNeverFires` | common/disk_cache_config.go:115-122 | the clamp at zero never changes a value |
| `BodyStorage.CapacityKept` | common/disk_cache_config.go:170-177 | disk usage stays within the maximum if readers deliver no more than declared |
| `BodyStorage.OverrunExample` | common/disk_cache_config.go:170-177 | that condition is needed |
| `BodyStorage.OverrunIff` | common/body_storage.go:262-303 | after some honest bodies a given one takes disk usage beyond the maximum if and only if its declared length goes to disk and fits and its stream delivers more, up to its limit |
| `BodyStorage.DriveStorages` | common/disk_cache_config.go:109-134 | creating and closing real storages moves the counters as the ledger says |
| `RouteTable.CheckModels` | dto/channel_settings.go:358-396 | the rules of a route are accepted exactly if they are well-formed, distinct and new to their path, without an earlier catch-all |
| `RouteTable.Validate` | dto/channel_settings.go:301-356 | a configuration is accepted if and only if each route is well-formed and no two routes of a path clash |
| `RouteTable.PathsAccepted` | dto/channel_settings.go:319-337 | incoming paths start with a slash and have no question mark; targets are paths with one leading slash or http or https URLs |
| `RouteTable.ConvertersAccepted` | dto/channel_settings.go:444-472 | which incoming path each converter takes |
| `RouteTable.AuthAccepted` | dto/channel_settings.go:474-493 | none, or a header or query parameter with name and value |
| `RouteTable.RulesAre` | dto/channel_settings.go:412-424 | the rules are the trimmed names in order without blank ones |
| `RouteTable.RegexRule` | dto/channel_settings.go:245-255 | a rule "re:p" is accepted with a non-empty pattern that compiles, and matches what it matches |
| `RouteTable.ExactRule` | dto/channel_settings.go:245-248 | any other rule is accepted and matches the name that it is |
| `RouteTable.RouteServes` | dto/channel_settings.go:213-224 | a route without rules, or with one that matches, serves the requests its path matches |
| `RouteTable.MatchPathForModel` | dto/channel_settings.go:132-144 | the first matching route, or none matches |
| `RouteTable.FirstMatchIsLookup` | dto/channel_settings.go:132-144 | in a valid table first match is lookup by model name with the catch-all as default |
| `RouteTable.OrderDoesNotMatter` | dto/channel_settings.go:132-144 | any valid rearrangement answers an exact lookup with the same route |
| `RouteTable.FoundTogether` | dto/channel_settings.go:132-144 | a rearrangement finds a route if and only if the table does |
| `PathTemplate.TemplateMatchesIff` | dto/channel_settings.go:268-283 | a template matches exactly prefix + name + suffix with a non-empty, slash-free name, and the overlapping shorter requests |
| `PathTemplate.OverlapExample` | dto/channel_settings.go:281-282 | such a shorter request is accepted |
| `PathTemplate.StreamEquivalent` | dto/channel_settings.go:257-266 | a template for :generateContent serves :streamGenerateContent for the same names |
| `PathTemplate.PathMatchesIff` | dto/channel_settings.go:257-283 | a path with one placeholder matches the requests that fit it or its stream form, and no others |
| `PathTemplate.PlainPathMatchesIff` | dto/channel_settings.go:257-271 | a path without one matches itself and its stream form |
| `PathTemplate.TwoPlaceholders` | dto/channel_settings.go:273-276 | with two placeholders a path matches nothing |
| `RedisHash.Encode` | common/redis.go:107-159 | the hash holds the text of every field and nothing else |
| `RedisHash.Decode` | common/redis.go:161-240 | every field is parsed, the first failure is returned, an empty hash is not found |
| `RedisHash.IntRoundTrip` | common/redis.go:199-226 | decimal print and parse are inverse on all 64-bit integers |
| `RedisHash.PrintedAs` | common/redis.go:136-143 | decimal digits, and bools as words |
| `RedisHash.ParsedAs` | common/redis.go:199-206 | which texts are read as 64-bit integers |
| `RedisHash.BoolWords` | common/redis.go:207-212 | which words are read as true and false |
| `RedisHash.LoadedAs` | common/redis.go:187-236 | what a stored text becomes in a field of each type |
| `RedisHash.StoreAndLoad` | common/redis.go:107-240 | storing and loading fails exactly for unsupported types or an empty hash, otherwise gives every field back, and gives the struct itself if and only if it has no pointer to "", no set DeletedAt and no other struct that is not zero |
| `StepUp.Cookie.SetupLogin` | controller/user.go:137-156 | a login sets the user and leaves marker and verification standing |
| `StepUp.Cookie.PasskeyVerifyFinish` | controller/passkey.go:497-502 | an assertion of the session user writes the marker and clears the verification |
| `StepUp.Cookie.ConsumePasskeyReady` | controller/secure_verification.go:154-176 | the marker is used up, and counts if it is less than 60 seconds old |
| `StepUp.Cookie.UniversalVerifyPasskey` | controller/secure_verification.go:95-127 | verification by passkey as a whole |
| `StepUp.Cookie.SetSecureVerificationSession` | controller/secure_verification.go:142-152 | a verification clears the marker |
| `StepUp.Cookie.RequirePasskeyDeleteVerification` | controller/passkey.go:543-577 | the check in front of a deletion, with expiry |
| `StepUp.VerifiedIff` | controller/secure_verification.go:81-127 | a password is granted exactly if it matches, a passkey exactly with a marker less than 60 seconds old; what either writes |
| `StepUp.GuardedIff` | middleware/secure_verification.go:22-87 | a guarded request passes exactly with a verification less than 300 seconds old, a passkey deletion exactly with such a one by passkey |
| `StepUp.SessionWrites` | controller/passkey.go:497-502 | what assertion, login and logout write |
| `StepUp.FlowSucceeds` | controller/passkey.go:543-577 | assertion, verification and deletion in time always succeed |
| `StepUp.MarkerOrigin` | controller/passkey.go:497-502 | a marker in the session comes from an accepted assertion with nothing granted since |
| `StepUp.VerificationOrigin` | controller/secure_verification.go:142-176 | a passkey verification in the session used a marker less than 60 seconds old, of an assertion no other verification used |
| `StepUp.DeletionIsBacked` | controller/passkey.go:543-577 | in every run a passed deletion comes less than 300 seconds after such a verification, with no other step and no logout in between |
| `StepUp.DeletionByOwnerIff` | controller/user.go:137-156 | it concerns the user who made the assertion if and only if no one logged in since or that user did last |
| `StepUp.OtherOwnerExample` | controller/passkey.go:153-171 | a run in which the passkey of another user is deleted |
| `StepUp.VerificationsNeedAssertions` | controller/secure_verification.go:154-176 | passkey verifications never outnumber accepted assertions |

## Left out

- HTTP handlers, JSON, audit logs, notifications, OAuth, WebAuthn itself and upstream fetches: I/O without logic of its own.
- Relay, retry and billing: their logic is spread over packages that are not part of this model.
- Settlement across several server processes: the order lock is local to one process.
- Subscription orders: plans, snapshots and prices are not modelled; that a checkout went stale is a parameter, and the database's row locks make each of their transactions one step.
- Settlement: the quota is the amount times 500000 and neither overflows nor is written in batches.
- Multi-key channels: editing a channel (append and replace of keys) is not an action of the runs. The JSON parser is a parameter; where a statement requires it (`Shrinks`), an array is assumed to be longer than its elements joined by newlines, as the brackets and commas of JSON ensure.
- Multi-key actions read the channel before taking the polling lock; each action is modelled as one transaction, and its update does not fail.
- Key previews are cut by characters, not by bytes.
- UpstreamSync: the minimum check interval, the redirect mapping's JSON and failing updates are not modelled; the mapping is a parameter.
- ChannelScan: what is done with each visited channel, its counters and its samples are not modelled; tables that change during a scan are not either.
- Route lookup with overlapping regular expressions, or with two templates that match one request: the validator does not exclude them, so `RouteTable.FirstMatchIsLookup` is about exact rules of one path.
- Body storage: failing reads of a file, short reads, hit counters and CleanupOldDiskCacheFiles, which may count a file down twice.
- Prices: reals instead of floating point; objects and arrays as values; rounding and the final ratio tables of the models.dev conversion.
- Rate limiter: the mutex and int64 overflow; every key keeps one limit and duration; the expiration is in whole seconds.
- Ogg scan: readers that return fewer bytes than are available, and the other audio formats.
- Redis: expiry and transactions, and pointers to types other than string, bool, int and int64; RFC 3339 parsing is a parameter.
- Step-up: password checks are parameters, every request carries the session as last saved, and requests that name their user by an access token instead of the session are not modelled.
- Quota arithmetic, pagination, masking and constant tables are not modelled.
