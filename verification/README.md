# Verified model of the DNS and reverse-proxy server

The server answers DNS queries from zones, records, a cache and upstreams, and proxies HTTP requests to pools of
upstreams. This project models its protocol and state-machine cores in Dafny and proves what they promise:

- **Upstream pools and retries** (`upstreams`, `pool_invariants`, `pool_history`, `upstream_pool`, `fairness`, `retry`): smooth
  weighted round-robin mixed with a circuit breaker, active probes and draining, and the retry loop of a failing request.
- **Canonical JSON, idempotency, audit chain** (`json`, `json_parse`, `idempotency`, `audit`): the printer is a
  code and parsing undoes it, concurrent requests with one key never run side by side, and the last hash fixes the
  whole log.
- **Caches** (`proxy_cache`, `cache_reads`, `live_cache`, `dns_cache`): byte accounting, two-level eviction, what a get
  answers after a put, agreement with an unbounded map.
- **DNS wire format** (`wire`, `wire_names`, `addresses`, `messages`, `wire_layout`, `message_loops`, `query_echo`): names with compression
  (sections 2.3.4 and 4.1.4 of RFC 1035), records and whole messages (section 4.1).
- **Zone files** (`zone_file`, `zone_scan`, `zone_round_trip`, `zone_records`, `zone_newlines`, `zone_read_back`,
  `zone_lines`, `zone_meaning`, `zone_loops`): the master-file text form of section 5.1 of RFC 1035, printed from the
  records as stored, and what any uploaded file means.
- **Domain tree and SOA serials** (`names`, `domain_tree`, `soa_serials`).
- **Alias following** (`alias_data`, `alias_closest`, `alias_following`, `alias_answers`).
- **Latency histogram** (`latency`) and **restore with rollback** (`restore`).

Objects that the source updates in place are classes (`UpstreamPool`, `IdempotencyTable`, `AuditLog`, `ProxyCache`,
`DnsCache`, `ConfigStore`, `LatencyHistogram`, `BackupManager`). Their methods are proved equal to specification
functions on values, and the lemmas are about those functions. `text` holds splitting, joining and numerals;
`wrappers` holds options and results. `dafny verify dfyconfig.toml` checks everything.

Where the code does less than one might expect, the exact condition is proved, and a lemma gives an input:

| what fails | exact condition | input |
|---|---|---|
| a stored response cannot be read back | `StoredIsReadableExactly`: it replaced an identical body | `PutTwiceLosesBody`, `OneOctetIsLost` |
| a printed zone does not give its records back | `ExportReadsBackExactly`: a type not in capitals, a record that is disabled, without a TTL or with a number missing or out of range, a line feed in a TXT value, two final dots, or an owner that fails `OwnerReturns`: the apex not spelled as the zone, unless behind another apex record; a final dot; an empty label ahead of the zone; `$` or a lone `@` in front | `TwoFinalDotsAreDropped`, `FinalDotIsOutside`, `ApexMovesAway`, `MissingTtlIsUnreadable`, `MissingPriorityIsUnreadable`, `LineFeedIsUnreadable` |
| a resolution asks about a name twice | `PathIsDistinctExactly`: an alias value keeps a final dot after one normalization, and without it is a name already asked | `DottedAliasAsksAgain` |
| a query is not echoed in its response | `EchoesExactly`: a question name breaks the limits of an encoded name | `DottedLabelHasNoResponse`, `TrailingDotIsLost` |
| two operations run at once for one idempotency key | `SecondRunExactly`: the key's pending row passed its day | `SlowOperationRunsTwice` |
| a rename is not undone by renaming back | `RenameBackRestoresExactly`: a name of the tree was not in normal form, an outside name lay under the new one, a zone name grew too long, or proxy names clashed before | `SpellingIsLost` |
| a name does not follow its zone in a rename | `OwnersFollowExactly`: it was entered with two final dots, below a zone other than the root | `TwoFinalDots` |
| a zone's serial falls or does not tell its contents apart | `CommitIsSafeExactly`: an update had read something older than what it replaces | `OverlapSharesSerial`, `OverlapLowersSerial` |
| a tampered log verifies | `AppendVerifiesExactly`: an append that prunes rebuilds every hash | `PruningRepairs` |
| the byte count is wrong after loading | `LoadAccountsExactly`: a loadable stored entry repeats the id of an entry with a size | `RestartCountsTwice` |
| a request gives up beside an eligible primary | `PassesOverExactly`: the rotation offers the failed one again and no fallback is eligible | `SiblingPassedOver` |

## Model

| member | source | states |
|---|---|---|
| UpstreamPools.UpstreamPool.Next | src/services/proxy-routes.js:225-245 | the in-place selection is exactly one value-level step: breakers expire, a waiting trial goes first, otherwise the round-robin turn |
| UpstreamPools.UpstreamPool.RotateAvailable | src/services/proxy-routes.js:235-244 | the accumulating loop picks the first available upstream of greatest advanced weight and charges it the total |
| UpstreamPools.UpstreamPool.MarkFailure | src/services/proxy-routes.js:247-257 | changes the failing upstream alone, trips on a failed trial or at the threshold, reports a transition exactly when the state changed |
| UpstreamPools.UpstreamPool.MarkSuccess | src/services/proxy-routes.js:259-267 | closes that breaker and clears its count, nothing else |
| UpstreamPools.UpstreamPool.SetDraining | src/services/proxy-routes.js:269-271 | changes only that upstream's drain flag |
| UpstreamPools.UpstreamPool.RecordActiveProbe | src/services/proxy-routes.js:273-293 | counts consecutive results and flips active health only at its thresholds |
| PoolInvariants.SelectionIsEligible | src/services/proxy-routes.js:225-245 | a selected upstream is eligible, null means none is, trials take precedence over healthy upstreams |
| PoolInvariants.OfferedExactly | src/services/proxy-routes.js:225-245 | which upstream is offered, in fields alone: the first waiting trial, or with none waiting the available one whose weight after its increase beats all earlier and is beaten by no later one |
| PoolInvariants.UpdateKeepsPoolOk | src/services/proxy-routes.js:225-293 | every operation keeps: weights sum to zero, healthy iff below the threshold, a trial only while half-open, active health agrees with its state |
| PoolInvariants.RunKeepsPoolOk | src/services/proxy-routes.js:225-293 | the same over every interleaving of operations |
| PoolInvariants.TrialIsExclusive | src/services/proxy-routes.js:230-234 | while a half-open trial is out nothing hands that upstream out again |
| PoolInvariants.OpenStaysUnselected | src/services/proxy-routes.js:227-229 | a tripped upstream is not selected before its cool-down, whatever happens in between |
| PoolHistory.BreakerFollowsHistory | src/services/proxy-routes.js:225-267 | over every run: healthy exactly below the threshold of failures since the last success, open until the last failure plus the cool-down, half-open exactly once a selection came after that, its trial out exactly once handed out |
| PoolHistory.ProbesDecide | src/services/proxy-routes.js:273-293 | over every run: out exactly when the latest probe to complete a streak of its threshold completed one of failures, and counted healthy exactly when one of successes |
| Fairness.WeightIsDebt | src/services/proxy-routes.js:237-243 | from any weights, a current weight is what it was plus calls owed minus calls received, in units of the total weight |
| Fairness.ShareBounds | src/services/proxy-routes.js:237-243 | after any k calls no upstream is a whole turn ahead, and none is further behind than the others can be ahead |
| Fairness.FullTurnRestores | src/services/proxy-routes.js:237-243 | a full turn of total-weight calls returns the pool to where it was |
| Fairness.PoolIsPeriodic | src/services/proxy-routes.js:237-243 | from any point on, the pool repeats with the total weight as its period |
| Fairness.ExactlyFair | src/services/proxy-routes.js:225-245 | any total-weight consecutive calls pick each eligible upstream exactly its weight in times |
| Fairness.LongRunShares | src/services/proxy-routes.js:237-243 | from any weights an earlier run has left, each upstream stays within bounds of its share that do not grow with the number of calls |
| Retry.NextAttempt | src/services/proxy-server.js:398-405 | the route returned is a primary exactly when the rotation offers it and it is not the one that failed, and a fallback exactly when a primary failed, no other primary is offered, and the fallback pool offers it |
| Retry.ComesNextExactly | src/services/proxy-server.js:398-421 | the same of every step of the loop, on the pools as the recorded failure leaves them |
| Retry.AttemptFails | src/services/proxy-server.js:407-421 | one failing attempt records the failure in the route's own pool and then chooses the next route, if retrying is allowed |
| Retry.ServeFailing | src/services/proxy-server.js:398-493 | the whole loop terminates, follows the value-level rounds exactly, stops where they stop, and sends at most two requests an attempt, the second over HTTP/1 |
| Retry.StepCostsOne | src/services/proxy-routes.js:247-257 | every round uses up one of the chances the breakers leave |
| Retry.AttemptsAreBounded | src/services/proxy-server.js:407-493 | a request whose attempts all fail makes at most threshold times number-of-upstreams attempts, whatever bouncing occurs |
| Retry.GivesUpExactly | src/services/proxy-server.js:398-405 | the loop ends exactly when the rotation offers the failed primary again or none is eligible, and no fallback may be asked or is eligible |
| Retry.PassesOverExactly | src/services/proxy-server.js:398-405 | it ends beside an eligible primary exactly when the failed one is still available, no trial waits, its weight wins again, and no fallback is eligible |
| Retry.SiblingPassedOver | src/services/proxy-server.js:399-403 | a concrete pool where a healthy sibling is passed over because the rotation offers the failed upstream again |
| CanonicalJson.TextDeterminesMeaning | src/admin/idempotency-service.js:7-11 | equal canonical texts come from equal values, objects read as maps |
| CanonicalJson.MeaningDeterminesText | src/storage/sqlite-store.js:225-229 | equal values print alike whatever their key order |
| CanonicalJson.CanonicalIsUnambiguous | src/admin/idempotency-service.js:7-11 | two values print to the same text exactly when they are equal |
| JsonParsing.ParsesBack | src/storage/sqlite-store.js:225-262 | parsing the canonical text of any value succeeds and gives a value of the same meaning that prints the same |
| CanonicalJson.QuoteIsCode | src/admin/idempotency-service.js:8 | a quoted string followed by anything can be split in only one way |
| Idempotency.FingerprintIdentifiesRequest | src/admin/idempotency-service.js:13-19 | fingerprints agree exactly when upper-cased method, path and body do |
| Idempotency.IdempotencyTable.Reserve | src/storage/sqlite-store.js:456-487 | decided by the slot's unexpired row alone: none starts, another fingerprint is a conflict, pending is busy, completed is replayed; and what each leaves of the table |
| Idempotency.IdempotencyTable.Complete | src/storage/sqlite-store.js:489-502 | succeeds exactly on a pending row, which then holds the result |
| Idempotency.IdempotencyTable.Abandon | src/storage/sqlite-store.js:504-513 | removes exactly a pending row |
| Idempotency.EveryInterleavingIsOrderly | src/admin/idempotency-service.js:31-55 | in every interleaving completions find their own row, replays repeat the last completion, a different request never runs or replays |
| Idempotency.RunsNeverOverlap | src/admin/idempotency-service.js:46-54 | between two starts on one key the first operation has ended |
| Idempotency.CompletionIsReplayed | src/admin/idempotency-service.js:31-55 | after a completion, in every timely interleaving, each call for its slot before the deadline replays that status and response or is a conflict, so it completes once |
| Idempotency.BeginKeepsConsistentExactlyWhenTimely | src/storage/sqlite-store.js:464-466 | a reservation keeps the protocol's invariant exactly when no pending row has expired, or the call is a conflict |
| Idempotency.SecondRunExactly | src/storage/sqlite-store.js:464-486 | a second operation starts beside one in flight on the same key exactly when that key's row is pending and past its day |
| Idempotency.SlowOperationRunsTwice | src/storage/sqlite-store.js:464-466 | the concrete failing run: an operation longer than a day runs beside a second one and one result is lost |
| Audit.AuditLog.Append | src/storage/sqlite-store.js:620-671 | refuses incomplete entries; otherwise prunes, rebuilds if anything was pruned, and links the new entry to the last |
| Audit.AppendKeeps | src/storage/sqlite-store.js:620-671 | an append leaves the rows pruning leaves, contents and ids in order, and the new entry behind them |
| Audit.PrunedExactly | src/storage/sqlite-store.js:635 | pruning two stretches of the log prunes each, in order; with PrunedLast: a row goes exactly when it is before the cutoff |
| Audit.PrunedLast | src/storage/sqlite-store.js:635 | a row behind others stays exactly when it is not before the cutoff, and the others are pruned as without it |
| Audit.AuditLog.Verify | src/storage/sqlite-store.js:709-721 | valid exactly when every link and hash is right; brokenAt is the first entry where not |
| Audit.AuditLog.Rebuild | src/storage/sqlite-store.js:1126-1135 | rewrites all links and hashes in order and nothing else |
| Audit.AppendVerifiesExactly | src/storage/sqlite-store.js:632-637 | an append leaves a verified log exactly when it verified before or pruning rebuilt it |
| Audit.PruningRepairs | src/storage/sqlite-store.js:635-637 | a broken entry behind an outdated one: the log does not verify, and after an append it does |
| Audit.RunsVerify | src/storage/sqlite-store.js:620-671 | every run of appends keeps the log verified |
| Audit.HashDeterminesContent | src/storage/sqlite-store.js:231-244 | with an injective hash, equal entry hashes mean equal contents and equal links |
| Audit.LastHashDeterminesLog | src/storage/sqlite-store.js:709-721 | two verified logs with the same last hash have equal length and contents |
| Audit.RereadKeepsHash | src/storage/sqlite-store.js:246-262 | a row's states, parsed from their stored canonical texts, mean the same and hash the same under every link |
| Audit.RereadLogVerifies | src/storage/sqlite-store.js:709-721 | a log verifies as read back exactly when it verifies as written |
| LiveProxyCache.ProxyCache.EvictDown | src/services/proxy-cache.js:82-97 | the two eviction loops reach exactly the two-level eviction function |
| LiveProxyCache.ProxyCache.Put | src/services/proxy-cache.js:156-206 | index, byte count and directory after a put are those of which PutThenGet, PutEvicts and PutThenClear speak |
| LiveProxyCache.ProxyCache.Get | src/services/proxy-cache.js:125-154 | expired and damaged entries go, a hit is touched, its body returned |
| LiveProxyCache.ProxyCache.Start | src/services/proxy-cache.js:99-123 | intact unexpired entries are taken over, once, then evicted to size |
| LiveProxyCache.ProxyCache.Configure | src/services/proxy-cache.js:212-220 | refuses sizes below one, otherwise evicts to the new size |
| LiveProxyCache.ProxyCache.Clear | src/services/proxy-cache.js:222-232 | the index walk has the outcome that ClearKeepsExactly describes |
| ProxyCaching.ClearKeepsExactly | src/services/proxy-cache.js:222-232 | exactly the entries outside the site and location stay, in order, and exactly the files of the others go |
| ProxyCaching.PutAccounting | src/services/proxy-cache.js:156-206 | after a put the count is the sum of sizes, total and location within their limits |
| ProxyCaching.GetAccounting | src/services/proxy-cache.js:125-154 | a get keeps the count exact and never grows the total |
| ProxyCaching.ConfigureAccounting | src/services/proxy-cache.js:212-220 | after a resize the count is exact and the total within the new limit |
| ProxyCaching.AdmittedIsStored | src/services/proxy-cache.js:168-205 | with a clock that has not gone back, put stores exactly what is admissible: the newcomer is never its own victim |
| CacheReads.PutThenGet | src/services/proxy-cache.js:125-206 | after a put, with no other entry of the key, a get answers the body that was put exactly for its key, before its lifetime ends, with the stored value for each name varied by, and unless the put repeated the body it replaced; otherwise nothing |
| CacheReads.VariantAgrees | src/services/proxy-cache.js:35-38 | with the variant taken from the storing request, that is exactly when the two requests agree on every name varied by |
| CacheReads.PutEvicts | src/services/proxy-cache.js:82-205 | a put leaves the entries found, less the one replaced, and its own, the oldest of the location gone as far as its limit needs, then the oldest of all |
| CacheReads.ConfigureEvicts | src/services/proxy-cache.js:212-220 | a new size evicts the oldest as far as it needs, and nothing while everything fits |
| CacheReads.PutThenClear | src/services/proxy-cache.js:222-232 | a stored response is cleared exactly with its own site and location |
| CacheReads.GetLeaves | src/services/proxy-cache.js:125-154 | a get takes out the entries of its key that have expired up to the one it chooses, which it marks as accessed or, damaged, takes out, and leaves the rest |
| ProxyCaching.EvictLocationIsLeastRecent | src/services/proxy-cache.js:87-91 | whatever a location loses was accessed no later than anything it keeps, the last of it had to go, and other locations lose nothing |
| ProxyCaching.EvictTotalIsLeastRecent | src/services/proxy-cache.js:92-96 | the same for the whole cache |
| ProxyCaching.RunStaysInOrder | src/services/proxy-cache.js:125-232 | over every run with a monotone clock the count is exact, within the limit, and the next admissible put is stored |
| ProxyCaching.StoredIsReadableExactly | src/services/proxy-cache.js:177-203 | the stored body can be read back exactly when the put did not replace an identical body |
| ProxyCaching.StartKeepsNamed | src/services/proxy-cache.js:99-123 | after a start from an index whose files carry their entries' names, such as the cache's own, they all do |
| ProxyCaching.RunKeepsNamed | src/services/proxy-cache.js:125-232 | every run of puts, gets, resizes and clears keeps each file named after its entry |
| ProxyCaching.RunStoresReadableExactly | src/services/proxy-cache.js:125-232 | after every run: a stored body can be read back exactly when the put did not replace an identical body |
| ProxyCaching.PutTwiceLosesBody | src/services/proxy-cache.js:177-180 | putting any response twice running reports success and leaves its body unreadable |
| ProxyCaching.OneOctetIsLost | src/services/proxy-cache.js:177-180 | the same for one octet in an empty cache |
| ProxyCaching.HitIsSound | src/services/proxy-cache.js:131-146 | a hit is an unexpired entry of this request and variant with an intact file, now marked as accessed |
| ProxyCaching.HitExactly | src/services/proxy-cache.js:125-154 | a get answers from the first unexpired entry of its key and variant, and exactly when that entry exists and its file is intact |
| ProxyCaching.LoadAccountsExactly | src/services/proxy-cache.js:109-118 | loading keeps an exact count exact exactly when no loadable stored entry repeats the id of an indexed or earlier loadable entry that has a size |
| CacheReads.StartTakesExactly | src/services/proxy-cache.js:109-118 | exactly the stored entries with an id that have not expired and whose file is intact are taken over |
| ProxyCaching.FirstStartAccounting | src/services/proxy-cache.js:99-123 | a first start leaves the cache in the order that runs preserve: exact count, within the limit, no access in the future |
| ProxyCaching.RestartDrifts | src/services/proxy-cache.js:109-116 | starting again over the cache's own index adds exactly the sizes of its live entries to the count |
| ProxyCaching.RestartCountsTwice | src/services/proxy-cache.js:109-116 | one live entry, started again, is counted twice |
| DnsCaching.DnsCache.Get | src/dns/cache.js:26-36 | an expired entry is dropped, a hit moves to the young end |
| DnsCaching.DnsCache.Set | src/dns/cache.js:38-49 | nothing for failures and non-positive lifetimes, otherwise insert, sweep and trim the oldest |
| DnsCaching.LifetimeExactly | src/dns/cache.js:40-42 | an entry lives for its TTL, or for the bound it is beyond, in whole milliseconds |
| DnsCaching.SetThenGet | src/dns/cache.js:26-49 | what was set is found until its deadline and no longer |
| DnsCaching.SetLeaves | src/dns/cache.js:38-59 | after a set nothing has expired, the entry set is youngest, and nothing unexpired is missing below the bound |
| DnsCaching.HitIsLastSet | src/dns/cache.js:26-49 | after any run a hit is what an unbounded map holds for that key, unexpired, and the size is bounded |
| DnsCaching.UnexpiredKeyIsRetained | src/dns/cache.js:26-60 | an unexpired key still hits while fewer than maxEntries distinct other keys were touched since |
| WireNames.EncodeName | src/dns/message.js:44-62 | the loop writes the normalized labels, or fails on a bad label or more than 255 octets |
| WireNames.EncodesExactly | src/dns/message.js:44-62 | a name encodes exactly when its normal form is the root or has labels of 1 to 63 octets and at most 253 in all |
| WireNames.DecodeName | src/dns/message.js:64-101 | the loop with recursive pointers terminates on every buffer and offset and stays inside it |
| WireNames.DecodeIsExpansion | src/dns/message.js:64-101 | decoding succeeds exactly where pointer expansion ends, gives the expanded name and stops past the first pointer or terminator |
| WireNames.EncodedNameDecodes | src/dns/message.js:44-101 | an encoded name embedded anywhere decodes to the normalized name and its end |
| WireNames.EncodedNameLength | src/dns/message.js:49-58 | an encoded name takes 1 to 255 octets |
| Addresses.Ipv4RoundTrip | src/dns/message.js:128-302 | the dotted text of four octets reads back as them |
| Addresses.Ipv4TextIsNormal | src/dns/message.js:299-302 | a text accepted as IPv4 is the text its octets print to |
| Addresses.Ipv6RoundTrip | src/dns/message.js:118-285 | the printed groups of sixteen octets encode back to them |
| Addresses.Ipv4Text | src/dns/message.js:128 | four decimal numbers without leading zeros |
| Addresses.Ipv6Text | src/dns/message.js:118-122 | eight hexadecimal numbers without leading zeros, each of two octets |
| Addresses.GapTextEncodes | src/dns/message.js:275-285 | a double colon stands for exactly the missing zero groups |
| Addresses.QuadMeansGroups | src/dns/message.js:268-273 | a trailing dotted quad means its two hexadecimal groups |
| MessageLoops.EncodeTxt | src/dns/message.js:287-296 | the loop writes the text in length-prefixed chunks of at most 255 octets |
| MessageLoops.ParseTxt | src/dns/message.js:149-159 | the loop joins the chunks up to the data's end or reports truncation |
| MessageLoops.ParseQuestionSection | src/dns/message.js:215-231 | the loop reads exactly the announced questions, in order |
| MessageLoops.ParseRecordSection | src/dns/message.js:215-241 | the loop reads exactly the announced records, in order |
| Messages.DataReads | src/dns/message.js:124-329 | encoded data of every supported type parses to its normal form |
| Messages.RecordReads | src/dns/message.js:196-347 | an encoded record embedded anywhere parses to its normal form and its end |
| Messages.FlagsRoundTrip | src/dns/message.js:103-376 | the response's flag word decodes to the query's opcode and RD bit and the chosen bits and code |
| Messages.ResponseRoundTrip | src/dns/message.js:215-376 | every response that can be built parses to the query's id and to the questions and three record sections, in order and normal form, nothing left over |
| WireLayout.HeaderLayout | src/dns/message.js:103-241 | identity, every flag bit and the section counts stand where RFC 1035 has them |
| WireLayout.QuestionLayout | src/dns/message.js:181-194 | type and class stand behind the name |
| WireLayout.RecordLayout | src/dns/message.js:196-213 | type, class, TTL and length stand behind the name, then the data |
| WireLayout.TargetLayout | src/dns/message.js:130 | the data of a name server or alias is one name |
| WireLayout.ExchangeLayout | src/dns/message.js:144-148 | the preference, then the exchange |
| WireLayout.ServiceLayout | src/dns/message.js:160-168 | priority, weight and port, then the target |
| WireLayout.SoaLayout | src/dns/message.js:131-143 | two names and five numbers |
| QueryEcho.EchoesExactly | src/dns/message.js:181-376 | for every accepted query and all records that encode, the response is built and repeats the questions unchanged exactly when each question name keeps the limits of an encoded name |
| QueryEcho.PlainQueryIsEchoed | src/dns/message.js:64-101 | queries whose names, pointers followed, have no dot inside a label and at most 255 octets are among those |
| QueryEcho.DottedLabelHasNoResponse | src/dns/message.js:49-53 | a query with a label that starts with a dot is accepted and cannot be answered |
| QueryEcho.TrailingDotIsLost | src/dns/message.js:39-42 | a query with a label that ends with a dot is answered for a different question |
| ZoneLoops.ScanStatements | src/dns/zone-file.js:16-83 | the character loop splits text into logical statements as the automaton does |
| ZoneLoops.SplitTokens | src/dns/zone-file.js:85-113 | the token loop agrees with the token automaton |
| ZoneLoops.ParseAll | src/dns/zone-file.js:185-245 | the statement loop threads origin, default TTL, owner, SOA and records through all statements |
| ZoneScan.QuotedReads | src/dns/zone-file.js:85-113 | any text, quoted and escaped, tokenizes back to itself |
| ZoneScan.JoinTokenizes | src/dns/zone-file.js:85-113 | words and quoted texts joined by blanks tokenize to what each stands for |
| ZoneLines.LinesAreStatements | src/dns/zone-file.js:16-83 | any lines of words and quoted texts are one statement each, without an owner exactly behind a blank |
| ZoneLines.CommentIsHidden | src/dns/zone-file.js:48-51 | an unquoted semicolon hides the rest of its line |
| ZoneLines.LineFeedIsBlank | src/dns/zone-file.js:52-74 | inside parentheses a line feed is a blank |
| ZoneMeaning.DataReadsExactly | src/dns/zone-file.js:124-175 | the fields of every type are read as exactly what they stand for: a relative target as its labels followed by those of the origin, several texts joined by blanks |
| ZoneMeaning.SoaReadsExactly | src/dns/zone-file.js:218-231 | the same of the fields of an SOA |
| ZoneMeaning.RecordLine | src/dns/zone-file.js:202-241 | a line adds the record it stands for, relative owner included, with the last TTL it gives or else the inherited one |
| ZoneMeaning.UnreadableLine | src/dns/zone-file.js:136-175 | a line whose fields stand for nothing of its type is refused |
| ZoneMeaning.AcceptedHasOwner | src/dns/zone-file.js:207-212 | an accepted line names an owner in the zone, or follows a line that had one |
| ZoneMeaning.SoaLine | src/dns/zone-file.js:218-232 | an SOA is taken at the apex, once, and refused elsewhere or again |
| ZoneMeaning.StateIsLatest | src/dns/zone-file.js:189-206 | the inherited TTL is that of the latest $TTL, the origin that of the latest $ORIGIN, given relative to the zone |
| ZoneMeaning.LastLineReads | src/dns/zone-file.js:177-241 | behind any accepted lines of text, a line adds the record it stands for under the latest origin and TTL |
| ZoneMeaning.AcceptedFileStays | src/dns/zone-file.js:115-122 | every record of an accepted file lies in the zone, with a TTL, address and port the store takes |
| ZoneRoundTrip.SoaBlock | src/dns/zone-file.js:278-287 | the parenthesized SOA lines scan as one logical statement |
| ZoneRecords.FieldsParse | src/dns/zone-file.js:136-175 | the printed fields of a stored record parse exactly when its priority and weight are there and in range, and then to its data in normal form |
| ZoneRecords.RecordScans | src/dns/zone-file.js:260-270 | the line of a stored record without a line feed scans to one statement, with an omitted owner exactly when its relative name is empty |
| ZoneRecords.StatementReads | src/dns/zone-file.js:194-241 | that statement parses exactly when its owner can be read and TTL and numbers are there; it then keeps everything but perhaps the owner, and is enabled |
| ZoneRecords.OwnerReadsExactly | src/dns/zone-file.js:247-250 | an owner in any spelling is read back in normal form exactly when it is the zone, at most a character longer and the owner before it, or longer without final dot, empty label ahead of the zone, `$` or lone `@` in front |
| ZoneReadBack.PrintedStatements | src/dns/zone-file.js:272-290 | a printed zone splits into its directives, SOA and stored records, one statement each |
| ZoneReadBack.ExportReadsBackExactly | src/dns/zone-file.js:185-290 | parsing the printed zone gives SOA, default TTL and every stored record in normal form, in the order of the file, exactly when none is dropped and each returns |
| ZoneReadBack.ExportThenParse | src/dns/zone-file.js:177-290 | then, after the final ordering, the records are those of the zone, as often as each occurs |
| ZoneReadBack.TwoFinalDotsAreDropped | src/dns/zone-file.js:272-274 | the owner w.o.. belongs to zone o and is not printed |
| ZoneReadBack.FinalDotIsOutside | src/dns/zone-file.js:247-250 | the owner w.o. in zone o makes the printed zone unreadable |
| ZoneReadBack.ApexMovesAway | src/dns/zone-file.js:247-250 | the owner O in zone o is read back as the owner of the record before it |
| ZoneReadBack.MissingTtlIsUnreadable | src/dns/zone-file.js:260-261 | a record stored without a TTL makes the printed zone unreadable |
| ZoneReadBack.MissingPriorityIsUnreadable | src/dns/zone-file.js:264 | so does a mail exchange stored without a priority |
| ZoneReadBack.LineFeedIsUnreadable | src/dns/zone-file.js:63-70 | so does a text with a line feed |
| Names.UnderIsLabelSuffix | src/admin/domains.js:122-125 | the text suffix test with its dot is the suffix order on label lists |
| Names.OwnerIsUnique | src/admin/domains.js:127-132 | the longest enclosing zone is unique and is the one found |
| DomainTree.RewriteBack | src/admin/domains.js:196-202 | for every name as entered: rewriting there and back restores it exactly when it was in normal form inside the old tree, or outside both |
| DomainTree.RenamedZonesDistinct | src/admin/domains.js:219-234 | an accepted rename keeps zone names distinct |
| DomainTree.RenameAcceptedExactly | src/admin/domains.js:219-251 | a rename is accepted exactly when it names a zone, keeps zone names distinct and leaves no two proxy names alike |
| DomainTree.RenameMoves | src/admin/domains.js:231-250 | every owner, alias, name server, exchange, service target, host and alias host of the old tree keeps its labels in front of the new name; addresses, texts and all else stay |
| DomainTree.OwnersFollowExactly | src/admin/domains.js:122-132 | a name's owner after the rename is its owner's new name, for every name as entered but those of the tree with two final dots, which fall to the root |
| DomainTree.TwoFinalDots | src/admin/domains.js:196-202 | the concrete record entered with two final dots that changes its zone |
| DomainTree.RenameBackRestoresExactly | src/admin/domains.js:219-250 | renaming back restores the whole configuration exactly when every name in it is restorable, new zone names kept the length limit and proxy names did not clash |
| DomainTree.SpellingIsLost | src/admin/domains.js:196-202 | a target entered in capitals comes back in small letters though the new name was free |
| SoaSerials.ConfigStore.Prepare | src/admin/config-store.js:206-221 | up to the awaited write: the configuration to store or the reason for refusing, computed from the one held, which stays |
| SoaSerials.ConfigStore.Commit | src/admin/config-store.js:222-223 | after the write, what was prepared replaces whatever is held by then |
| SoaSerials.PublishesAlikeExactly | src/admin/domains.js:88-103 | a zone counts as unchanged exactly when its settings and its records, in any order, are the same, as long as different records do not collate equal |
| SoaSerials.UpdateStep | src/admin/domains.js:105-120 | a kept zone's serial never falls, rises when what it publishes changes, otherwise moves only by an import |
| SoaSerials.SerialAfterUpdate | src/admin/config-store.js:206-223 | the exact serial: the greatest of those imported and its own, which after a change is one more than before, or the date's if that is more |
| SoaSerials.UpdateKeepsRest | src/admin/config-store.js:206-223 | all but serials is as given, has passed the checks, and every import was in range and for a zone there is |
| SoaSerials.SerialsOverRuns | src/admin/config-store.js:206-226 | over every interleaving of reads, commits and failed writes in which no commit had read something older, serials are ordered and equal serials mean equal published zones |
| SoaSerials.UndisturbedRunsAreFresh | src/admin/config-store.js:206-226 | so it is whenever no update commits between another one's read and commit |
| SoaSerials.CommitIsSafeExactly | src/admin/config-store.js:206-226 | a call may replace what is held, whatever it brings, exactly when what it read is no older for any zone held |
| SoaSerials.OverlapSharesSerial | src/admin/config-store.js:206-223 | two overlapping updates of one zone leave one serial for two different contents |
| SoaSerials.OverlapLowersSerial | src/admin/config-store.js:206-223 | an update that read before an import and commits after it takes the serial back |
| SoaSerials.ImportsOnlyRaise | src/admin/config-store.js:213-220 | imported serials can only raise, and only the zones they name |
| SoaSerials.ExhaustedZoneIsFrozen | src/admin/domains.js:18-22 | at serial 2^32 - 1 no accepted update changes what the zone publishes |
| AliasData.BuildStore | src/dns/records.js:35-44 | the index holds for each name exactly its records, in order |
| AliasData.BuiltStoreIsWellFormed | src/dns/zones.js:63-69 | a built index is well formed exactly when no name has two aliases |
| AliasData.FindRecords | src/dns/records.js:46-61 | the lookup loop has the outcome that FindIsClosest describes |
| AliasData.FindAnswers | src/dns/zones.js:105-126 | the wildcard loop has the outcome that ZoneAnswersAreClosest describes |
| AliasData.FindDelegation | src/dns/zones.js:80-91 | the loop towards the apex has the outcome that DelegationIsNearestCut describes |
| AliasClosest.DelegationIsNearestCut | src/dns/zones.js:80-91 | the name servers are those of the longest name at or above the one asked and below the apex that has any, and none exactly when there is no such name |
| AliasClosest.FindIsClosest | src/dns/records.js:46-61 | an inexact lookup answers from the wildcard of the longest proper ancestor that has an answer, and with nothing exactly when none has |
| AliasClosest.ZoneAnswersAreClosest | src/dns/zones.js:105-126 | the same within a zone for names it does not hold; a name it holds answers for itself alone |
| AliasClosest.SelectsExactly | src/dns/records.js:22-26 | records of the type asked for, and aliases only without any |
| AliasClosest.ZoneResolvesExactly | src/dns/zones.js:128-168 | the longest enclosing zone; no answer behind a cut; the SOA at the apex; NXDOMAIN exactly when nothing is held and nothing answers |
| AliasData.LocalAnswersAreUniform | src/dns/zones.js:105-170 | local answers are a single alias or alias-free, all owned by the name asked |
| AliasFollowing.PathIsDistinctExactly | src/dns/resolver.js:67-186 | a resolution asks about at most seventeen names, and no name twice exactly when no followed target keeps a final dot without which it is a name already asked |
| AliasFollowing.DottedAliasAsksAgain | src/dns/resolver.js:155-184 | the record a CNAME a.. makes the resolver ask seventeen times about a and answer SERVFAIL |
| AliasFollowing.ResolveIsWalk | src/dns/resolver.js:96-182 | over the names really asked, the visited set never changes the outcome: resolution is the walk of at most sixteen alias steps |
| AliasFollowing.CycleGivesServFail | src/dns/resolver.js:96-182 | any alias path over the names asked that runs into a cycle is answered SERVFAIL, or throws when its first name does not encode |
| AliasFollowing.ResolvedFromLocalDataIsChain | src/dns/resolver.js:76-186 | an address answered without cache or upstream, if it is answered at all, is a contiguous alias chain from the name asked, policies and wildcards included |
| AliasAnswers.ResolutionAnswers | src/dns/resolver.js:96-182 | at most sixteen steps to a name that answers: the response has its rcode, the aliases as sent in order and all its records; nothing with SERVFAIL; with another failure only the aliases ahead of the first policy alias |
| AliasAnswers.LongOrRootAliasFails | src/dns/resolver.js:96-182 | a seventeenth step, or an alias to the root, is answered SERVFAIL |
| AliasAnswers.BadTargetThrows | src/dns/resolver.js:96-182 | a target that does not encode makes the resolution throw |
| AliasAnswers.ConsultedInOrder | src/dns/resolver.js:76-196 | policies first, then the enclosing zone, then the records, then cache and upstreams; the first alias is followed exactly for address questions |
| Latency.FirstBucketIsPercentile | src/benchmark/load.js:49-61 | the first bucket where the running count reaches the rank holds the sorted percentile |
| Latency.PercentileExactly | src/benchmark/load.js:14-24 | one of the values, with at least the quantile's share of them no greater and less than that share smaller |
| Latency.BucketExactly | src/benchmark/load.js:38-41 | a value's bucket is its whole part, up to the last bucket |
| Latency.LatencyHistogram.Observe | src/benchmark/load.js:38-43 | refuses negative values; otherwise the counts are those of the values observed, modulo 32 bits |
| Latency.LatencyHistogram.Merge | src/benchmark/load.js:45-47 | adds all values, or those before the first invalid one |
| Latency.LatencyHistogram.PercentileBucket | src/benchmark/load.js:49-61 | while no bucket overflows, the answer is the capped floor of the sorted percentile |
| Restore.BackupManager.ApplyStaging | src/backup/manager.js:436-450 | succeeds exactly when no step fails, leaving the archive's files and nothing else where a restore reaches |
| Restore.BackupManager.RestoreRollback | src/backup/manager.js:452-466 | succeeds exactly when no step fails, leaving the snapshot's files and nothing else where a restore reaches |
| Restore.BackupManager.RestoreFiles | src/backup/manager.js:330-370 | all or nothing: restored exactly when no step fails; one failing step, wherever it is, never loses the old files; exit runs once iff enter succeeded |
| Restore.RollbackRestoresAll | src/backup/manager.js:423-466 | however far applying got, putting the snapshot back yields the original files, less the database's side files |
| Restore.RestoringOwnSnapshot | src/backup/manager.js:423-450 | restoring an archive of the current files changes nothing but the database's side files |
| Restore.AppliedExactly | src/backup/manager.js:436-450 | once every file is copied the directory is the archive plus what a restore never touches |

## Left out

Foreign calls are parameters: clock readings, SHA-256 (an injective function), `net.isIP`, sort orders (any
permutation), the remaining configuration checks, upstream and cache answers during alias following, policies.

- Retry.ServeFailing: site drain flags are fixed during a request, and the clock advances by less than `openMs`; which attempts are repeated over HTTP/1 is a parameter.
- CacheReads.PutThenGet: the request key is a parameter, and headers are given with names in small letters; status and stored headers of the answer are left out.
- ZoneLines.LinesAreStatements: pieces have single blanks between them.
- PoolInvariants.RunKeepsPoolOk: assumes a failure threshold of at least one, as configuration does; early returns can leave a trial marked as out for good, so nothing is claimed about recovery.
- Fairness.ExactlyFair: from zero weights and for a fixed set of eligible upstreams; from other weights see Fairness.LongRunShares, and while the set changes only the zero sum and the pool invariant hold.
- CanonicalJson.CanonicalIsUnambiguous: a number is its `JSON.stringify` text; `undefined`, NaN, negative zero and lone surrogates are not values; keys are ordered by character code.
- JsonParsing.ParsesBack: text without white space, as canonical text is; numbers are their texts, and escaped surrogates are left out.
- Idempotency.EveryInterleavingIsOrderly: for runs in which no pending row outlives its 24 hours; beyond that see the exact condition and the failing run.
- ProxyCaching.RunStaysInOrder: within one start; header and status checks of `put` are one flag, and file errors other than a missing or damaged body are left out.
- DnsCaching.UnexpiredKeyIsRetained: until the cache is cleared.
- WireNames.EncodedNameDecodes: text is given by its UTF-8 octets, one character each; lower-casing is ASCII only.
- Messages.ResponseRoundTrip: types and classes are their codes; the caller's EDNS options and pseudo-record handling are left out.
- QueryEcho.EchoesExactly: labels that are not valid UTF-8, whose text the source lengthens with replacement characters, are left out.
- Addresses.Ipv6RoundTrip: zone identifiers in IPv6 text are left out.
- ZoneReadBack.ExportReadsBackExactly: owners and targets are visible ASCII without quotes, parentheses and semicolons, which the exporter does not escape, and the zone has hostname characters; TTLs and numbers are integers or absent; record ids are left out.
- DomainTree.RenameBackRestoresExactly: zone names are as configurations store them, in normal form and encodable, and so are the two names of the rename; records, targets and routes are as entered.
- SoaSerials.SerialsOverRuns: the configuration in memory; overlapping writes to the file may land in the other order.
- AliasFollowing.ResolvedFromLocalDataIsChain: delegation authorities and glue are left out; between alias levels only names can fail to encode, and upstream and cache answers are taken as given, without a chain.
- Latency.LatencyHistogram.PercentileBucket: values and quantiles are reals, without floating-point rounding.
- Restore.BackupManager.RestoreFiles: a directory is a map from path to content; files do not change between snapshot and maintenance, and failures of reopening after a rollback leave the files as they are.
- Sockets, HTTP transport, compression, WebSockets, timers, child processes, the web interface, routing and wiring.
- Matching of hosts and locations to pools, access lists, rate limits, and the shape checks of configuration input.
- SQL text, zip reading, real file atomicity, password hashing, tokens and roles.
- Domain deletion, domain state propagation and import plans, whose results follow from the suffix test alone.
