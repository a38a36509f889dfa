# Verified models of the QAPI backend

This project models the parts of the QAPI Go backend whose correctness does not show from reading one function, and
proves what they promise. Check everything with `dafny verify dfyconfig.toml`.

| file | what it models |
|---|---|
| `CpaCache.dfy`, `CpaCacheAnswers.dfy`, `CpaCacheContents.dfy` | the cached list of CPA auth files: every lock, test, fetch and write of any number of goroutines is a step |
| `Strings.dfy`, `ModelNames.dfy` | trimming, splitting and joining; the ordered-set algebra over model names and its comma-separated stored form |
| `UpstreamUpdate.dfy`, `UpstreamRuns.dfy`, `UpstreamScan.dfy` | detecting and applying upstream model changes, whole runs of it, and the paginated scan over channels |
| `Tolerance.dfy`, `PriceDifferences.dfy`, `PriceConverters.dfy`, `Rounding.dfy` | the three-pass price comparison and the two price converters |
| `KeyText.dfy`, `MultiKey.dfy`, `MultiKeyRuns.dfy` | the keys of a multi-key channel with their three sparse index maps |
| `RateLimiter.dfy` | the in-memory sliding-window limiter and its background sweep |
| `OggOpus.dfy` | the resynchronising Ogg page walker that measures Opus audio |
| `BodyStorage.dfy`, `RequestBody.dfy`, `UsageRuns.dfy` | request bodies in memory or on disk, their reuse by every relay attempt, the usage counters |
| `Midjourney.dfy` | polling and refunding Midjourney tasks |
| `SecureSession.dfy`, `VerificationCodes.dfy`, `QuotaMath.dfy` | step-up verification, expiring codes, saturating quota arithmetic |

Code that updates state in place is a class or a method with loops, proved against a function on values; the laws are
lemmas about those functions over whole histories. Clocks, fetched responses, write failures, regular expressions and
the JSON parser are parameters, so every result holds for any behaviour of theirs.

Some promises turn out not to hold on every input. Each of these has the exact condition under which it holds:

- The limiter's sweep is harmless exactly when it waits at least `duration - 1` seconds (`SweepHarmlessIff`).
- Detecting again after applying everything finds nothing to add exactly when no added name holds a comma and no
  needed ignore rule is spelled like an added name (`ApplyAllConvergesOnAdditions`).
- A run of checks and applies keeps the pending lists consistent exactly when no stored apply adds a name that splits
  into a pending one it leaves alone (`RunConsistentIff`, `SplitNameExample`).
- The change flag of an apply is wrong exactly when it adds names that are not local, or removes local ones, and yet
  every piece of what it adds is local already and every removed local name is such a piece (`ApplyReportsChangeIff`,
  `FlagExample`); auto-sync counts right exactly when its names bring as many new pieces as names
  (`CheckReportsChangeIff`, `AutoSyncFlagExample`).
- Deleting keys keeps the rest of the status page exactly when the keys that are left, joined by newlines, are read back
  as the same keys: as an array that lists them, or as lines without inner newlines and without blank ends
  (`DeleteKeyReportIff`, `DeleteDisabledReportIff`). Otherwise keys fall apart or are lost, statuses can move to other
  keys, and disable times can point outside the list (`ArrayKeyExample`, `BlankKeyExample`, `RunIndexedIff`).
- Appending keeps the page under the same condition on old and new keys together (`AppendReportIff`); an array that
  cannot be read is replaced by the new keys (`UnreadableArrayIsReplaced`).
- Deleting the auto-disabled keys when all of them are: the empty key text is skipped by the struct update, no key is
  deleted, and every key shows as enabled again (`AllAutoDisabledReport`).
- An empty JSON array of keys is counted as its lines (`SizeIsKeyCountIff`).
- Disabling a key by hand changes nothing but its status exactly when the key was not enabled, or nothing of an earlier
  disabling is still on record: recovering by itself leaves time and reason behind (`DisableChangesStatusOnlyIff`,
  `StaleReasonExample`).
- A client that sends an earlier session cookie again uses a passkey ceremony again (`ResentSessionExample`); what a
  session vouches for is exactly its own chain of requests (`CarriedCheckPassesIff`).
- A price that is the literal text "same" can hide a difference (`SameTextExample`; `ReportIsRight` is exact).
- A failure that changes a task's status is not enough for a single refund (`ChangingStatusIsNotEnough`), and upstream
  need not report any failure for two (`TwiceByComingLate`); the exact conditions are `RefundedAtMostOnceIff` and, when
  one answer may name a task repeatedly, `RepeatedlyRefundedAtMostOnceIff`.
- The disk capacity check bounds usage exactly when creations do not overlap (`NeverExceedsIff`); with `k` overlapping
  creations usage stays within `k` times the maximum (`RunKeepsUsage`).
- Memory and disk storage differ exactly on an empty read at the end (`KindsAgreeIff`).

## Model

| member | source | states |
|---|---|---|
| CpaCache.RunKeepsInv | controller/cpa_import.go:378-421 | in every run of any number of listing and invalidating goroutines: lock ownership matches program points, and live cached files and every goroutine's copy are newer than the invalidations they must be newer than |
| CpaCacheAnswers.ReturnsWhatWasAnswered | controller/cpa_import.go:397-411 | in every run a finished call returns the very files that some upstream request answered, with that request's start; without a cached hit it is the call's own request, and nothing is returned exactly when that failed |
| CpaCacheAnswers.RunKeepsOrigins | controller/cpa_import.go:378-421 | in every run all files in the cache, in a goroutine's hands and in a finished call were answered by upstream |
| CpaCacheAnswers.FailedFetchEndsCall | controller/cpa_import.go:397-406 | a call whose own request failed finishes with nothing at its next step and leaves the cache alone |
| CpaCacheAnswers.RequestWasSent | controller/cpa_import.go:397 | a request in flight carries the step and clock value at which it was sent |
| CpaCacheContents.CacheHoldsLatest | controller/cpa_import.go:407-421 | while nobody writes, the cache holds the files of the latest entry stored and not cleared since, with fifteen seconds from the clock value its call read, or nothing |
| CpaCacheContents.FirstTestHitsIff | controller/cpa_import.go:380-386 | the first test hits exactly when the latest entry stored and not cleared since outlives the clock value the call read, and serves that entry's files |
| CpaCacheContents.SecondTestHitsIff | controller/cpa_import.go:389-395 | the second test likewise, against the clock as it stands then |
| CpaCache.NoStaleFilesAfterInvalidation | controller/cpa_import.go:378-421 | a list call begun after an invalidation returned never yields files whose fetch began before that invalidation |
| CpaCache.CachedHitIsRecent | controller/cpa_import.go:378-421 | a cached hit was fetched less than fifteen seconds before the clock value it was tested against |
| CpaCache.SingleFlight | controller/cpa_import.go:387-421 | while one fetch is in flight nobody else fetches, stores or invalidates |
| CpaCache.SomeCallCanMove | controller/cpa_import.go:378-421 | the two locks cannot deadlock: whenever a call is under way, some call can take its next step |
| CpaCache.AdvanceKeepsLocks | controller/cpa_import.go:378-421 | each step keeps the ownership of the refresh mutex and of the read/write lock in line with every goroutine's program point |
| Strings.TrimIdempotent | controller/channel_upstream_update.go:93-98 | trimming twice is trimming once |
| Strings.SplitAtSeparator | model/channel.go:307-312 | splitting text around one separator splits both sides independently |
| Strings.JoinSplitEach | model/channel.go:193-215 | parts that hold separators join to the same text as their fields |
| ModelNames.NormalizeIsNormalized | controller/channel_upstream_update.go:93-98 | a normalised list holds trimmed, non-empty, distinct names |
| ModelNames.NormalizeMember | controller/channel_upstream_update.go:93-98 | a name is in the normalised list exactly when it is some entry, trimmed, and not blank |
| ModelNames.NormalizeFixed | controller/channel_upstream_update.go:93-98 | normalising leaves exactly the normalised lists unchanged |
| ModelNames.MergeModelNames | controller/channel_upstream_update.go:100-114 | the loop over a growing `seen` set keeps the first occurrence of every name of both lists, in order |
| ModelNames.MergeNames | controller/channel_upstream_update.go:100-114 | merging is set union, and leaves the base list untouched exactly when it brings no new name |
| ModelNames.SubtractMember | controller/channel_upstream_update.go:116-125 | subtracting is set difference |
| ModelNames.IntersectMember | controller/channel_upstream_update.go:127-136 | intersecting is set intersection |
| ModelNames.ApplySelectedMember | controller/channel_upstream_update.go:138-143 | selected additions win over selected removals: the result holds the additions and what was not removed |
| ModelNames.ApplySelectedUnchanged | controller/channel_upstream_update.go:138-143 | the list compares equal to the original exactly when its set of names is the same |
| ModelNames.LocalIsSplit | model/channel.go:307-312 | trimming commas before splitting only drops blank fields |
| ModelNames.LocalCommaFree | model/channel.go:307-312 | no name read back from the stored form holds a comma |
| ModelNames.StoredNames | controller/channel_upstream_update.go:382-387 | storing a list and reading it back yields exactly the pieces of its names |
| ModelNames.StoreRoundTrip | controller/channel_upstream_update.go:382-387 | a normalised list is read back unchanged exactly when no name holds a comma |
| UpstreamUpdate.PendingAddMember | controller/channel_upstream_update.go:172-231 | pending additions are exactly the upstream names that are neither local, nor redirect targets, nor hidden by an ignore rule |
| UpstreamUpdate.PendingRemoveMember | controller/channel_upstream_update.go:172-231 | pending removals are exactly the local names that are neither redirect sources nor upstream names |
| UpstreamUpdate.Channel.CheckAndPersist | controller/channel_upstream_update.go:356-403 | the stored row, change flag and count after a check: skipped, failed fetch, staged or auto-adopted, with the write succeeding or not |
| UpstreamUpdate.Channel.RecordFound | controller/channel_upstream_update.go:380-403 | what a successful check stores, and that nothing is stored when the write fails |
| UpstreamRuns.CheckStoresFindings | controller/channel_upstream_update.go:172-231 | after a stored successful check: pending removals are exactly the local names that are neither redirect sources nor upstream names; pending additions exactly the upstream names that are not local, not redirect targets and not ignored, or none with auto-sync |
| UpstreamRuns.CheckLeavesAlone | controller/channel_upstream_update.go:356-403 | a check that is skipped, fails or is not stored leaves models and pending lists alone, rules never change, and the check time is written exactly when a check that was not skipped is stored |
| UpstreamRuns.AutoSyncAdopts | controller/channel_upstream_update.go:380-391 | with auto-sync the local names then are the old ones and the pieces of every such upstream name |
| UpstreamUpdate.Channel.ApplyUpdates | controller/channel_upstream_update.go:802-850 | the stored row and the answer of an apply, and that a failed write leaves the row alone |
| UpstreamUpdate.Channel.AdoptSelected | controller/channel_upstream_update.go:823-850 | the same for the selected names: new models, ignore rules and remaining pending lists |
| UpstreamRuns.ApplyStoresSelection | controller/channel_upstream_update.go:802-850 | for any row, name by name: what an apply answers as added and removed, what stays pending, which rules it leaves, and that it answers as remaining what it stores |
| UpstreamUpdate.UpdateIgnored | controller/channel_upstream_update.go:830-833 | the new ignore rules: the old ones and the newly ignored names, without the added ones |
| UpstreamUpdate.FoundIsConsistent | controller/channel_upstream_update.go:172-231 | what a detection finds is disjoint from the local names, from literal ignore entries and from its own removals |
| UpstreamUpdate.CheckKeepsConsistent | controller/channel_upstream_update.go:356-403 | every check, even one that adopts names with commas, keeps the pending lists consistent |
| UpstreamUpdate.SelectedMember | controller/channel_upstream_update.go:816-821 | only pending names can be selected, and a name both added and removed is added |
| UpstreamUpdate.LocalAfterApply | controller/channel_upstream_update.go:823-828 | the local names after an apply, read back: what stays, and the pieces of what was added |
| UpstreamUpdate.RemainingMember | controller/channel_upstream_update.go:834-837 | what stays pending is what was neither added nor ignored, and what was not removed |
| UpstreamUpdate.ApplyKeepsConsistentIff | controller/channel_upstream_update.go:802-850 | an apply keeps the row consistent exactly when no added name splits into a pending name that is neither added nor ignored with it |
| UpstreamRuns.RunConsistentIff | controller/channel_upstream_update.go:356-403 | over every run of checks and applies, with any upstream lists and any selections: pending additions stay disjoint from local names, literal ignore entries and pending removals, removals stay local and lists duplicate-free, exactly when every stored apply stays clear |
| UpstreamRuns.FreshRunConsistentIff | controller/channel_upstream_update.go:356-403 | the same from any row with nothing pending, and always when no upstream name holds a comma |
| UpstreamRuns.SplitNameExample | controller/channel_upstream_update.go:823-838 | applying a name while one of its pieces stays pending breaks the row |
| UpstreamRuns.RunKeepsRowOk | controller/channel_upstream_update.go:356-403 | with comma-free upstream lists every run keeps the row consistent and the pending names comma-free |
| UpstreamRuns.ApplyReportsChangeIff | controller/channel_upstream_update.go:823-828 | for every row: the change flag of an apply says whether the set of local names changes, except exactly when names that are not local are added or local ones removed and yet all pieces of what is added are local and cover the removed local names |
| UpstreamRuns.FlagExample | controller/channel_upstream_update.go:823-828 | applying a name spelled like the stored models reports a change and changes nothing |
| UpstreamRuns.ApplyReportsChange | controller/channel_upstream_update.go:823-828 | without commas the flag is always right |
| ModelNames.StoredAfterAdding | controller/channel_upstream_update.go:381-387 | storing a list with names added, whatever they hold, and reading it back appends exactly the new pieces |
| UpstreamRuns.CheckAppendsPieces | controller/channel_upstream_update.go:380-403 | a check appends exactly the new pieces of the names it adopts, for any upstream list, and reports the names |
| UpstreamRuns.CheckReportsChangeIff | controller/channel_upstream_update.go:380-403 | its flag is right unless what it adopts brings no new piece, and its count is right exactly when it brings as many new pieces as names |
| UpstreamRuns.AutoSyncFlagExample | controller/channel_upstream_update.go:380-391 | auto-sync of a name spelled like the stored models reports one name added and changes nothing |
| UpstreamRuns.CheckReportsChange | controller/channel_upstream_update.go:380-403 | without commas a check adopts all it found or nothing, its flag says which, and its count is the growth of the local list |
| UpstreamRuns.ApplyAllConvergesOnAdditions | controller/channel_upstream_update.go:172-231 | after detect and apply-all the same upstream list has nothing to add exactly when no added name holds a comma and every needed ignore rule survives |
| UpstreamRuns.ApplyAllConvergesOnRemovals | controller/channel_upstream_update.go:172-231 | and nothing to remove exactly when every piece of an added name is an upstream name or a redirect source |
| UpstreamRuns.ApplyAllConverges | controller/channel_upstream_update.go:802-850 | names without commas and without the rule prefix converge on both sides, whatever the regular expressions match |
| UpstreamRuns.AutoSyncConverges | controller/channel_upstream_update.go:380-391 | after auto-sync the same list has nothing to add exactly when no adopted name holds a comma |
| UpstreamRuns.CommaNameExample | controller/channel_upstream_update.go:823-828 | an upstream name with a comma is pending again after it has been applied |
| UpstreamRuns.RuleNameExample | controller/channel_upstream_update.go:830-833 | adding a name spelled like a regular-expression rule removes that rule and uncovers another name |
| UpstreamScan.Scan | controller/channel_upstream_update.go:556-644 | with channels coming and going between queries, the scan visits ids in ascending order, each at most once, only enabled ones, misses none that is enabled throughout, and stops at the first short page |
| PriceDifferences.CompareChannel | controller/ratio_sync.go:606-624 | what one channel shows in one cell, whether it has a value, and whether it counts as different |
| PriceDifferences.RateChannel | controller/ratio_sync.go:562-590 | the preprocessing of one channel: every model is rated, by the definition of trust |
| PriceDifferences.RateChannels | controller/ratio_sync.go:558-591 | the preprocessing of all channels, a later channel of a name replacing an earlier one |
| PriceDifferences.CompareCell | controller/ratio_sync.go:595-652 | one cell of the first pass: included exactly when some channel differs, with every channel's entry and the trust mark looked up in the preprocessed table |
| PriceDifferences.CompareModel | controller/ratio_sync.go:594-653 | all fields of one model |
| PriceDifferences.CompareAll | controller/ratio_sync.go:593-654 | all models |
| PriceDifferences.CollectModels | controller/ratio_sync.go:542-556 | every model named by the local prices or by a channel |
| PriceDifferences.FindMarked | controller/ratio_sync.go:656-665 | the channels with a value other than null and "same" in some included cell |
| PriceDifferences.PruneModel | controller/ratio_sync.go:668-688 | unmarked channels are dropped, and cells that are empty or all "same" go |
| PriceDifferences.PruneAll | controller/ratio_sync.go:667-693 | models without cells go |
| PriceDifferences.BuildDifferences | controller/ratio_sync.go:536-696 | the three passes together compute the specified report |
| PriceDifferences.MarkedIffActive | controller/ratio_sync.go:656-665 | a channel is marked exactly when it shows a difference somewhere, over all models and fields |
| PriceDifferences.ReportIsRight | controller/ratio_sync.go:536-696 | for any values: which cells are reported, and that each lists exactly the channels that differ somewhere |
| PriceDifferences.TrustMarkIsRight | controller/ratio_sync.go:558-591 | in every reported cell a channel is marked untrusted exactly when its data hold for that model a number within a billionth of 37.5 as model ratio and one within a billionth of 1 as completion ratio |
| PriceDifferences.CellSays | controller/ratio_sync.go:595-629 | in every reported cell: the local value, and for each channel "same" when its value means the local one or neither side has one, null when only the local side has one, else its value |
| PriceDifferences.EqualIffSameMeaning | controller/ratio_sync.go:55-62 | normalised values compare equal exactly when both are numbers less than a billionth apart, or the values are equal |
| PriceDifferences.ReportMeetsSimpleSpec | controller/ratio_sync.go:536-696 | on values other than null and "same": a cell is reported exactly when some channel's value is not the local one within the tolerance |
| PriceDifferences.PlainDifferenceIsReported | controller/ratio_sync.go:536-696 | one ordinary difference is enough for its cell, whatever the other values are |
| PriceDifferences.SameTextExample | controller/ratio_sync.go:612-624 | a channel whose value is the text "same" differs and is not reported |
| PriceConverters.SortedKeys | controller/ratio_sync.go:915-919 | collecting map keys in any order and sorting them gives the ascending list of exactly those keys |
| PriceConverters.ListIsUnique | controller/ratio_sync.go:915-919 | there is only one such list, so map iteration order cannot matter |
| PriceConverters.AddProvider | controller/ratio_sync.go:923-943 | one provider changes the selection of each model by at most its own offer |
| PriceConverters.SelectCandidates | controller/ratio_sync.go:915-944 | the double loop computes the fold over providers in ascending order, for every model |
| PriceConverters.SelectedIsBest | controller/ratio_sync.go:881-893 | the selected price is zero only if all valid offers are, and else less than the tolerance above the cheapest non-zero one, although the tolerance is not transitive |
| PriceConverters.RoundRatioError | controller/ratio_sync.go:698-700 | a rounded ratio is within half a unit of the sixth decimal |
| PriceConverters.CandidateIff | controller/ratio_sync.go:845-879 | which quotes become candidates, with NaN, infinite, negative and missing prices, and that a candidate carries the quoted prices |
| PriceConverters.ModelsDevRatiosAre | controller/ratio_sync.go:950-972 | half the input price, and output and cache prices over the input price exactly where they are quoted, each within half a unit of the sixth decimal; zero alone for a free model |
| PriceConverters.OpenRouterRatiosAre | controller/ratio_sync.go:744-793 | which listings give which ratios, each within half a unit of the sixth decimal, for all prices |
| PriceConverters.UnparsedCountsAsZero | controller/ratio_sync.go:745-760 | a price that does not parse counts as zero, unless neither does: then the model is left out |
| PriceConverters.ConvertersAgree | controller/ratio_sync.go:744-793 | the same prices quoted per token and per million tokens give the same model, completion and cache ratios, for all prices including negative and zero ones |
| PriceConverters.OutputPriceRecovered | controller/ratio_sync.go:776-783 | the product of the two stored ratios recovers the output price within an explicit compounded bound |
| PriceConverters.ConvertOpenRouter | controller/ratio_sync.go:724-807 | the loop puts each listing's ratios into the three maps, a later listing of a model overwriting an earlier one |
| PriceConverters.EachListingConverted | controller/ratio_sync.go:744-793 | with distinct ids each model gets its own ratios and nothing else gets any |
| PriceConverters.ConvertSelected | controller/ratio_sync.go:950-972 | the last loop puts the ratios of every selected offer, and nothing else, into the three maps |
| PriceConverters.ConvertModelsDev | controller/ratio_sync.go:906-985 | the three maps hold the ratios of the selected offers, and it fails exactly when no model has a valid offer |
| KeyText.JoinStaysPlain | model/channel.go:193-215 | keys that do not start a JSON array cannot form one when joined |
| KeyText.LinesOfJoin | model/channel.go:193-215 | the lines of joined keys, whatever they hold: each falls apart at its newlines, and what is blank at either end is lost |
| KeyText.ReadBackIff | model/channel.go:193-215 | one-line keys are read back unchanged exactly when neither end is blank, or one blank key is all there is |
| KeyText.ReadBackWholeIff | model/channel.go:193-215 | joined keys are read back as the same keys exactly when the text is read as an array that lists them, or else no key holds a newline and neither end is blank |
| KeyText.LinesEnds | model/channel.go:213-214 | the ends of the lines of a text are not blank unless it holds nothing but newlines |
| MultiKey.DropBeyond | model/channel.go:573-581 | the cleanup loop keeps exactly the status entries below the key count |
| MultiKey.Channel.Save | model/channel.go:544-591 | the stored row after a write-back: key count recounted, status entries beyond it dropped, an empty key text left as stored |
| MultiKey.Channel.DisableKey | controller/channel.go:1601-1642 | refused for a missing or bad index, else the whole new row |
| MultiKey.Channel.EnableKey | controller/channel.go:1644-1684 | refused for a missing or bad index, else the entries of that key are gone from all three maps |
| MultiKey.Channel.EnableAllKeys | controller/channel.go:1686-1708 | all entries of all three maps are gone |
| MultiKey.Channel.DisableAllKeys | controller/channel.go:1710-1755 | every enabled key becomes manually disabled and the others keep their status; refused when there is none |
| MultiKey.DisableBelow | controller/channel.go:1722-1734 | the loop behind it, with a count that is zero exactly when every key is disabled |
| MultiKey.Channel.DeleteKey | controller/channel.go:1757-1835 | refused for a bad index or the last key, else the reindexed row |
| MultiKey.WithoutKey | controller/channel.go:1775-1822 | the loop copies every other key and moves its entries in all three maps to the new position |
| MultiKey.Channel.DeleteDisabledKeys | controller/channel.go:1837-1904 | refused when nothing is auto-disabled, else the reindexed row |
| MultiKey.WithoutAutoDisabled | controller/channel.go:1838-1890 | the loop keeps the keys that are not auto-disabled with their entries at the new positions, and counts the others |
| MultiKey.Channel.AppendKeys | controller/channel.go:976-1050 | the row after an append, for an empty key text, for lines and for a JSON array |
| MultiKey.KnownKeys | controller/channel.go:1027-1034 | the keys already known, trimmed, blanks left out |
| MultiKey.TrimKeys | controller/channel.go:1018-1024 | the keys of the request, trimmed, blanks left out |
| MultiKey.TakeFresh | controller/channel.go:1035-1046 | each unknown key is taken once, in order |
| MultiKey.FreshOfIs | controller/channel.go:1035-1046 | what is taken are the distinct keys that are not known, in order of first occurrence |
| MultiKey.CollectFresh | controller/channel.go:1018-1046 | both loops together compute the new keys |
| MultiKey.ReindexEntry | controller/channel.go:1781-1807 | entry j of a reindexed map is the entry of the j-th surviving key, where there was one |
| MultiKeyRuns.DisableKeyReport | controller/channel.go:1601-1642 | disable-key is refused exactly without an index below the size; else it shows exactly that line as manually disabled, with the time and reason on record, and every other line as before |
| MultiKeyRuns.DisableChangesStatusOnlyIff | controller/channel.go:1601-1642 | it changes nothing but the status exactly when the key was not enabled or nothing of an earlier disabling is on record |
| MultiKeyRuns.StaleReasonExample | model/channel.go:686-698 | a key that failed and recovered by itself shows the old time and reason when it is disabled by hand |
| MultiKeyRuns.EnableKeyReport | controller/channel.go:1644-1684 | enable-key is refused likewise; else it shows exactly that line as enabled and leaves no time and reason on record |
| MultiKeyRuns.EnableAllReport | controller/channel.go:1686-1708 | enable-all shows every line as enabled and leaves nothing on record |
| MultiKeyRuns.DisableAllReport | controller/channel.go:1710-1755 | disable-all is refused exactly when no position below the size is enabled; else it shows exactly the enabled lines below the size as manually disabled |
| MultiKeyRuns.AutoStatusReport | model/channel.go:659-698 | an automatic status change touches exactly the first line of that key, and nothing when the key is not listed |
| MultiKeyRuns.SizeIsKeyCountIff | model/channel.go:544-591 | after any write-back no status points outside the keys, and the stored size is the number of keys exactly when the text is not an empty array |
| MultiKeyRuns.RunKeepsSize | controller/channel.go:1601-1904 | over every run, for any key text: the size is the number of counted keys and no status points outside it |
| MultiKeyRuns.RebuiltRow | controller/channel.go:1817-1824 | the keys and the whole info of any row after keys have been deleted, lines or array |
| MultiKeyRuns.RebuiltReportIff | controller/channel.go:1775-1824 | for any row and any choice of keys: the survivors keep order, status, disable time and reason exactly when what is written is read back whole |
| MultiKeyRuns.StepIndexedIff | controller/channel.go:1601-1904 | for any row: an action keeps every disable time and reason inside the key list exactly when it leaves none beyond the keys that will be counted |
| MultiKeyRuns.RunIndexedIff | controller/channel.go:1601-1904 | over every run of actions, appends and automatic status changes, for any key text and parser: the size is the number of keys and all three maps stay inside it, exactly when no action leaves a time or reason behind |
| MultiKeyRuns.RunWithoutBlanks | controller/channel.go:1601-1904 | with one key per line and no blank ones to begin with that is always so |
| MultiKeyRuns.DeleteKeyReportIff | controller/channel.go:1757-1835 | the last key stays; otherwise delete-key removes exactly the chosen line from the status page, for any row, exactly when what is left is read back whole |
| MultiKeyRuns.DeleteDisabledReportIff | controller/channel.go:1837-1904 | for any row: delete-disabled succeeds exactly when some key is auto-disabled, and removes exactly those lines exactly when there are none or what is left is read back whole |
| MultiKeyRuns.PlainDeletionIff | controller/channel.go:1757-1904 | with one key per line that is so exactly when the ends of what is left are not blank |
| MultiKeyRuns.AllAutoDisabledReport | controller/channel.go:1837-1904 | when every key is auto-disabled none is deleted and all show as enabled |
| MultiKeyRuns.ArrayKeyExample | controller/channel.go:1775-1824 | an array key that holds a newline is torn into two keys when another key is deleted |
| MultiKeyRuns.BlankKeyExample | controller/channel.go:1775-1824 | with a blank key in the middle, deleting the first key shows the auto-disabled last one as enabled and leaves its disable time outside the key list |
| MultiKeyRuns.AppendReportIff | controller/channel.go:976-1050 | for lines and readable arrays: an append leaves every old line of the status page as it was and adds the new keys below, enabled, exactly when all keys together are read back whole, or one blank key is all there is |
| MultiKeyRuns.UnreadableArrayIsReplaced | controller/channel.go:985-993 | appending to an array that cannot be read leaves only the new keys |
| MultiKeyRuns.FreshKeysAre | controller/channel.go:1018-1046 | the new keys are distinct and are exactly the trimmed lines that no existing key equals |
| MultiKeyRuns.PlainAppendIff | controller/channel.go:994-1049 | with one key per line that is so exactly when the old text holds more than newlines or nothing is added |
| RateLimiter.Limiter.Request | common/rate-limit.go:45-78 | the verdict and the new queues of all keys |
| RateLimiter.Limiter.ClearExpiredItems | common/rate-limit.go:28-42 | the sweep drops exactly the queues whose newest entry has expired, in whatever order it visits them |
| RateLimiter.DecisionAgrees | common/rate-limit.go:45-78 | the bounded queue decides exactly as counting the recent acceptances of the full history does |
| RateLimiter.LimiterRefinesFullHistory | common/rate-limit.go:28-78 | on every run with a nondecreasing clock and sweeps anywhere, the limiter answers as one that forgets nothing |
| RateLimiter.SweepsAreUnobservable | common/rate-limit.go:28-42 | removing every sweep from a run leaves every verdict as it was |
| RateLimiter.LimiterSpacesRequests | common/rate-limit.go:28-78 | any max + 1 consecutive requests that the limiter itself accepts for a key span at least the duration, whatever the sweeps do |
| RateLimiter.AcceptedTimesAreSpaced | common/rate-limit.go:45-78 | the same of the full history |
| RateLimiter.FloodIsMisjudged | common/rate-limit.go:28-42 | with a shorter expiration, a flood followed by a sweep gets one request too many through |
| RateLimiter.SweepHarmlessIff | common/rate-limit.go:28-78 | the sweep is harmless on every run exactly when the expiration is at least the duration minus one |
| OggOpus.SumLoop | common/audio.go:241-245 | the page size is the sum of the segment table |
| OggOpus.PageRound | common/audio.go:228-248 | one round at a page header: the new maximum, and the offset past the page or the end of the scan |
| OggOpus.Round | common/audio.go:207-249 | one round keeps the remaining result and the remaining visits, and moves the offset forward |
| OggOpus.OpusDuration | common/audio.go:196-254 | the scan ends on any bytes and returns the walker's maximum over 48000 |
| OggOpus.EncodedHoldsPage | common/audio.go:228-245 | an encoded page (section 6 of RFC 3533) is read back: signed granule position, segment count and length |
| OggOpus.WalkOverJunk | common/audio.go:219-226 | bytes in which no page starts are passed over one by one and change nothing |
| OggOpus.WalkOverStream | common/audio.go:196-254 | over any sequence of pages and junk the walker keeps the largest granule position |
| OggOpus.VisitsOfStream | common/audio.go:196-254 | and visits each page header once, in order |
| OggOpus.LargestIsMaximum | common/audio.go:228-232 | that value is an upper bound and is attained |
| OggOpus.DurationOfPages | common/audio.go:196-254 | a whole file of pages yields the maximum of zero and its granule positions, having visited exactly the page headers |
| BodyStorage.MemoryStorage.Do | common/body_storage.go:47-81 | a memory storage behaves as the abstract byte string and counts its first close only |
| BodyStorage.DiskStorage.Do | common/body_storage.go:169-230 | so does a disk storage |
| BodyStorage.DiskStorage.WholeFile | common/body_storage.go:198-230 | reading all bytes returns the whole file and leaves the cursor where it was; when the file system fails on the way, where the cursor is left |
| BodyStorage.File.ReadFull | common/body_storage.go:217-222 | repeated reads return exactly the wanted bytes, or fail at the end |
| BodyStorage.ReadsAreConsecutive | common/body_storage.go:47-55 | however a body is cut into reads, they bring its bytes in order from the cursor on, none twice and none left out |
| BodyStorage.RewindReadReturn | common/body_storage.go:205-230 | telling, rewinding, reading all and seeking back brings the whole body and ends where it began |
| BodyStorage.LastBytes | common/body_storage.go:56-63 | seeking back from the end and reading brings the last bytes |
| BodyStorage.BadSeekMovesNothing | common/body_storage.go:56-63 | a seek to before the start fails and leaves no trace |
| BodyStorage.ClosedForGood | common/body_storage.go:65-72 | once closed, a storage answers nothing any more, however often it is closed |
| BodyStorage.KindsAgreeIff | common/body_storage.go:47-238 | the two kinds answer alike except for an empty read with nothing left |
| BodyStorage.KindsAgree | common/body_storage.go:47-238 | over any sequence of non-empty reads, seeks, whole reads and closes nobody can tell memory from disk |
| BodyStorage.SideBySide | common/body_storage.go:47-238 | the two objects, driven side by side, give equal answers and end in equal states |
| BodyStorage.Create | common/body_storage.go:241-259 | the storage holds the data, its kind is decided by threshold and capacity, and the counters grow accordingly |
| BodyStorage.CreateFromReader | common/body_storage.go:262-307 | a body is accepted only if it fits, and then unchanged; the exact reason of each refusal; no counter moves on a refusal |
| BodyStorage.Usage.DecrementDiskFiles | common/disk_cache_config.go:115-122 | disk counters never go below zero |
| RequestBody.Context.GetBodyStorage | common/gin.go:36-103 | every successful call returns the whole original body at offset zero, from the storage, from bytes an older caller left, or read for the first time; it fails exactly when storing is refused, the storage was closed or the body is gone |
| RequestBody.Context.Cleanup | common/gin.go:105-113 | the storage is closed and forgotten |
| RequestBody.Context.ReadRest | controller/relay.go:191-211 | reading to the end yields everything from the cursor on |
| RequestBody.RelayAttempts | controller/relay.go:191-211 | every relay attempt sees the same whole body, whatever earlier attempts read, sought or copied |
| UsageRuns.RunKeepsUsage | common/body_storage.go:241-307 | in every run of creations and repeated closes the counters are the number and total size of open storages, and disk usage stays within the maximum times the number of overlapping creations |
| UsageRuns.Drive | common/body_storage.go:241-307 | the same counting law of the storage objects themselves, over any sequence of creations, refused ones included, and repeated closes; and disk usage within the maximum when no body exceeds its declared length |
| UsageRuns.CloseOne | common/body_storage.go:65-72 | closing a storage, for the first time or again, keeps the counters right and the other storages as they were |
| UsageRuns.NoOverlapNoExcess | common/disk_cache_config.go:177-184 | without overlap the configured maximum is never exceeded |
| UsageRuns.OverlapExample | common/disk_cache_config.go:177-184 | two overlapping creations can fill twice the maximum |
| UsageRuns.NeverExceedsIff | common/disk_cache_config.go:177-184 | the maximum holds in every run exactly when creations cannot overlap |
| Midjourney.CopyCarriesResponse | controller/midjourney.go:160-216 | after an item the poller's copy carries every field of the response, with the timeout failure in its place after an hour, and is finished once a failure is reported |
| Midjourney.RowBecomesCopy | controller/midjourney.go:208-232 | the stored task becomes that copy exactly when something is new, the write succeeds and the status is still the one loaded; the quota goes back exactly with a write that records a failure |
| Midjourney.SkippedIffNothingNew | controller/midjourney.go:241-294 | a response to an unfinished task is skipped exactly when it would change nothing |
| Midjourney.SkippedNeverFailed | controller/midjourney.go:241-294 | a skipped response to an unfinished task never reports a failure |
| Midjourney.HandleItem | controller/midjourney.go:160-232 | one item of an answer: timeout, skip, guarded write and refund |
| Midjourney.HandleAnswer | controller/midjourney.go:153-233 | the loop over the items that name a task is one step per item, with other pollers at work between any two |
| Midjourney.RunKeepsInv | controller/midjourney.go:153-233 | with any number of pollers, failing writes and any clocks, a refunded task is finished under a status no poller can still hold |
| Midjourney.RefundedAtMostOnceIff | controller/midjourney.go:153-233 | when answers name a task once, it is refunded at most once in every run exactly when neither FAILURE nor the status of a reported failure is one the task can have while unfinished |
| Midjourney.ChangingStatusIsNotEnough | controller/midjourney.go:170-233 | failures that each change the status can still refund twice when a status comes back |
| Midjourney.TwiceByComingLate | controller/midjourney.go:160-232 | an unfinished response repeated after an hour, at one clock reading, refunds twice with a single poller, though upstream reports no failure |
| Midjourney.TwiceByTwoReasons | controller/midjourney.go:160-232 | a reported failure heard first as a timeout and then as itself refunds twice |
| Midjourney.TwiceByReturningStatus | controller/midjourney.go:160-232 | a success that carries the submitted status, after a timeout, lets an old poller refund again |
| Midjourney.TwiceAroundAnother | controller/midjourney.go:153-233 | a finished failure repeated around any other item refunds twice |
| Midjourney.RepeatedlyRefundedAtMostOnceIff | controller/midjourney.go:153-233 | with arbitrary answers, at most one refund in every run exactly when all that upstream can say finishes the task without a failure under a status that is new, or a finished timeout is the only thing it can say |
| SecureSession.Store.ConsumePasskeyReady | controller/secure_verification.go:157-179 | a mark is used up whether or not it is still live, unless saving fails |
| SecureSession.Store.UniversalVerify | controller/secure_verification.go:68-143 | session and verdict for every method, missing set-up, bad code and failing save |
| SecureSession.Store.RequireMethod | controller/passkey.go:569-586 | the check passes for the right method in time, and an expired verification is wiped |
| SecureSession.VerificationSucceedsIff | controller/secure_verification.go:68-179 | over every history: a verification succeeds exactly when its session write succeeds and either the method is "2fa", set up, with a valid code that is not empty, or it is "passkey", set up, with the mark saved as used and the latest completed ceremony unused and under 60 seconds old; no other method succeeds |
| SecureSession.MarkIsUnused | controller/secure_verification.go:145-179 | the session's mark is exactly the latest completed ceremony that no later request has used up |
| SecureSession.CheckPassesIff | controller/passkey.go:569-586 | over every chain of sessions: a check passes exactly when the latest verification that met this condition used that method less than 300 seconds ago with no ceremony completed since |
| SecureSession.CheckWipesExpired | controller/passkey.go:569-586 | a stored check leaves a verification in the session only while it is good, and touches nothing else |
| SecureSession.MarkHasOrigin | controller/passkey.go:495-503 | a mark in the session stems from the latest ceremony and has not been used |
| SecureSession.PasskeyVerificationHasMark | controller/secure_verification.go:157-179 | every successful passkey verification rests on an unused ceremony less than 60 seconds old |
| SecureSession.PasskeyVerificationsUseOwnMarks | controller/secure_verification.go:145-179 | along one chain of sessions, two successful passkey verifications rest on different ceremonies, in order |
| SecureSession.SessionOfChain | controller/secure_verification.go:145-179 | with sessions sent again at will, a session holds what its own chain of requests left and nothing else |
| SecureSession.CarriedCheckPassesIff | controller/passkey.go:569-586 | with sessions sent again at will: a check passes exactly when, on the chain of the session it carries, the latest completed verification used that method less than 300 seconds ago with no ceremony completed since |
| SecureSession.CarriedVerificationSucceedsIff | controller/secure_verification.go:68-179 | with sessions sent again at will: a verification succeeds exactly when the chain of the session it carries meets that condition |
| SecureSession.CarriedVerificationHasMark | controller/secure_verification.go:157-179 | every successful passkey verification rests on an unused ceremony of its own chain less than 60 seconds old |
| SecureSession.ResentSessionExample | controller/secure_verification.go:157-179 | a session sent again uses its ceremony a second time |
| VerificationCodes.Store.RegisterCode | common/verification.go:35-45 | the code is stored, and a full store is swept |
| VerificationCodes.RegistrationKeepsStoreSmall | common/verification.go:35-45 | after a registration the store holds at most ten entries or none that has expired, and the new one unless it expired on the spot |
| VerificationCodes.Store.RemoveExpired | common/verification.go:65-72 | exactly the expired entries are gone, in whatever order they are visited |
| VerificationCodes.NoCrossTalkIff | common/verification.go:16-19 | two purposes never share an entry exactly when neither is a prefix of the other |
| VerificationCodes.StoreRemembers | common/verification.go:35-72 | after every history the stored entry is the latest registration, or that one has expired |
| VerificationCodes.VerifiesIff | common/verification.go:35-72 | a code verifies exactly when the latest registration for that key and purpose carried it, was not deleted since and is under 600 seconds old; the sweep cannot be noticed |
| QuotaMath.ConversionsAreMonotone | common/quota_math.go:60-117 | every conversion fits in 32 bits and never turns a larger value into a smaller one |
| QuotaMath.SignsArePreserved | common/quota_math.go:60-117 | a charge stays a charge and a credit stays a credit |
| QuotaMath.FlaggedIff | common/quota_math.go:60-103 | a clamp is flagged exactly for NaN and at or beyond either bound |
| QuotaMath.ClampedValue | common/quota_math.go:60-103 | exactly NaN becomes zero under its own flag, and exactly the values at or beyond a bound become that bound, flagged as overflow or underflow |
| QuotaMath.TruncationIsFaithful | common/quota_math.go:60-90 | unflagged truncation drops the fraction |
| QuotaMath.RoundingIsFaithful | common/quota_math.go:79-117 | unflagged rounding is to nearest, half away from zero, and odd; truncating and rounding differ by at most one; decimals convert alike |
| Rounding.RoundIsNearest | common/quota_math.go:94-103 | rounding is to the nearest integer, of two the one further from zero |

## Left out

- HTTP clients, databases, Redis, SMTP, OAuth, WebAuthn and response writing: their results enter as parameters.
- Stored rows: `Updates` with a struct is taken to skip zero-valued columns, and the guarded task update to report the rows it matched; two editors overwriting each other's channel row between load and save is not modelled.
- The CPA cache is a step machine and not a class, because its claims are about interleavings; the preference of waiting writers in the read/write lock is not modelled, which only adds interleavings.
- Regular expressions are an arbitrary relation between patterns and names; JSON arrays are an arbitrary partial parser; the model mapping arrives already trimmed and parsed.
- Floats are reals, with infinities and NaN where the code tests for them; IEEE rounding, price text that parses to NaN or infinity, and JSON numbers kept as text are left out.
- ModelNames.GetModels and KeyText.GetKeys work on characters; Go works on bytes, which agree for the separators used here.
- MultiKeyRuns.AppendReportIff: does not cover appending to an empty key text, to an array that cannot be read or to an empty array; the size and index laws cover these too.
- Midjourney.HandleItem: the properties and buttons of a task, and tasks without an upstream id, which are failed in bulk and never refunded, are left out; a refund that fails to reach the account counts as one.
- The Vertex AI form of appended keys, the "replace" key mode, paging and masking of the key status page, the channel's own status when no key is left enabled.
- The notification text, retry intervals and counters of the upstream update task.
- OggOpus.OpusDuration: reads are taken to come up short only at the end of the file, and seeks not to fail; other audio formats are left out.
- BodyStorage.DiskStorage.Do: single reads and seeks of an open temporary file are taken to succeed.
- UsageRuns.RunKeepsUsage: excludes clearing, resetting or resynchronising the disk cache, which set the counters without regard to open storages, and takes a body to be no longer than what was reserved for it.
- SecureSession.CheckPassesIff: session values of another type than a 64-bit integer count as absent.
- Hit counters, cache statistics, logging, billing records and everything else that only reports.
