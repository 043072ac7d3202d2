# Verified model of the traffic engine

The engine pulls the machine's traffic into a userland network stack and decides for every flow
whether to hand it to a proxy, relay it from the physical interface, or drop it. This project models
the parts of it that carry the hard logic and proves what they promise. `dafny verify dfyconfig.toml`
checks everything. Nothing here runs the engine.

| file | part |
|---|---|
| `Bytes.dfy` | bytes, UTF-8 validity, addresses |
| `DnsName.dfy`, `DnsMessage.dfy` | the DNS name walk and the answer parser, as loops proved against recursive readings |
| `DnsWire.dfy` | an encoder with compression, and the round trip through the parser |
| `DnsCache.dfy` | the name cache as an object, against the history of what was stored |
| `Lifecycle.dfy` | `start`, `stop`, watchdog and drop as a concurrent step machine |
| `PcbList.dfy` | the macOS socket table walk |
| `Glob.dfy`, `Addresses.dfy`, `Rules.dfy` | rule patterns, address arithmetic, rule evaluation |
| `Flow.dfy` | flow decisions, the loop guard, handlers and counters |
| `Socks5.dfy`, `HttpConnect.dfy` | the two proxy handshakes |
| `Routes.dfy` | installing, rolling back and losing the tunnel's routes; longest-prefix capture |

Bytes are integers below 256 and bit tests on them are written arithmetically (`b & 0xC0 == 0xC0` is
`b >= 192`). Rust strings are their UTF-8 bytes where bytes matter and Dafny strings in the rule engine.
Clock readings, the owning process of a flow, and the failures of system calls are parameters.

## What turned out not to hold

Where the code does not do what its documentation, comments or tests say, the model follows the code.
Each case has a concrete input and a statement for all inputs of when the promise is kept.

- A response that announces no question is read as if it announced one, for every message
  (`DnsMessage.NoQuestionReadsOne`); a lone record in it is lost (`DnsMessage.LoneRecordIsLost`, at an input
  `DnsMessage.NoQuestionIsMisread`). The round trip holds for one question or more.
- "At most one adapter is alive" fails while a stop is unfinished (`Lifecycle.TwoAdaptersCanOverlap`). It holds in
  every state in which no stop is past its flag store, none was cancelled and drop has not begun
  (`Lifecycle.AtMostOneAdapter`); a new start makes a second live adapter exactly when one still lives
  (`Lifecycle.NewStartOverlapsExactly`).
- A running engine can have lost its adapter (`Lifecycle.RunningCanOutliveAdapter`), but not before its
  netstack ended (`Lifecycle.RunningHasAdapterUntilNetstackEnds`).
- A start that panics past its compare-exchange (`Lifecycle.StartCanUnwind`) leaves the flag set for good
  (`Lifecycle.UnwoundIsStuck`); otherwise the flag always stands for one live party (`Lifecycle.FlagHasOneHolder`).
- A connected socket with a different peer is attributed (`PcbList.WrongPeerIsAttributed`), though the test at
  `src/platform/macos/process.rs:512` expects no match; `PcbList.WrongPeerPassedOver` says exactly when it is
  passed over.
- The repository's README says flows fail open when the proxy is unreachable (lines 78-83). The code closes
  them: `Flow.Netstack.HandleTcp` for every flow, `Flow.ProxyDownClosesFlow` for one. `proxy_fallbacks` counts
  blocked flows.
- The same README says the proxy is given the cached host name when one is known (lines 171-174). It is, only
  if some rule filters on domains (`Flow.TargetIsNamedExactly`, at an input `Flow.KnownNameNotPassedOn`).
- Both conditions of the loop guard are needed: without attribution or without pinning there are re-entry
  chains of every length (`Flow.UnattributedChains`, `Flow.UnpinnedChains`).
- Credentials longer than 255 bytes are offered but cannot be sent (`Socks5.OffersHonoured`, at an input
  `Socks5.LongPasswordOfferedNotGiven`).
- A proxy that sends tunnel data in the same segment as its response head is not understood
  (`HttpConnect.NextByteHidesHead`, at an input `HttpConnect.TunnelDataHidesHead`);
  `HttpConnect.HeadFoundExactly` says which splits are.
- The comments of `src/platform/linux/adapter.rs:5-8` and `:56-57` promise that a hard kill and a failed start
  leave the routing table as it was. The multicast routes point at the physical interface: they survive a hard
  kill (`Routes.HardKillLeavesGroups`, `Routes.HardKillRestoresExactly`), and rolling back deletes a route of the
  user's own that looks just like ours (`Routes.OwnMulticastRouteIsLost`, `Routes.TearDownRestoresExactly`).

The table lists the main results first and then, by part, the operations and the lemmas they rest on.

## Model

| member | source | states |
|---|---|---|
| DnsWire.RoundTrip | src/dns.rs:110-237 | parsing any encoded response, whatever follows it, gives its class-IN A and AAAA records in order, each with the first question's name |
| DnsMessage.TruncationKeepsPrefix | src/dns.rs:110-191 | for every payload and every prefix of it, the prefix's answers are a prefix of the whole's |
| DnsName.ParseName | src/dns.rs:195-237 | on every input the loop ends, fails exactly when the recursive walk does, and otherwise gives the dot-join of the labels visited and the offset behind the in-place part |
| DnsName.NameLengthBounded | src/dns.rs:195-237 | a name is at most 11 times as long as the message, however pointers jump |
| DnsCache.Cache.Lookup | src/dns.rs:64-72 | over all calls so far: the latest non-empty name stored for the address, exactly while store time plus time to live is later than now |
| DnsCache.SnoopThenLookup | src/dns.rs:64-104 | on a cache after any calls, snooping an encoded response and looking up one of its addresses finds the first question's name |
| DnsCache.PurgingIsUnobservable | src/dns.rs:75-80 | no lookup tells whether purges happened |
| Lifecycle.InvAlways | src/lib.rs:331-487 | the invariants hold in every state of every interleaving |
| Lifecycle.FlagHasOneHolder | src/lib.rs:331-351 | the running flag is set exactly when one party holds it: a starter past its compare-exchange (for good, if it unwound), the published run, a stopper or drop between take and clear; never two |
| Lifecycle.PublishFindsEmptySlot | src/lib.rs:337-345 | publishing never overwrites a live run |
| Lifecycle.AdapterTakenOnce | src/lib.rs:418-458 | each adapter torn down, or being so, was taken by exactly one party |
| Lifecycle.StopOkMeansGone | src/lib.rs:407-430 | once `stop` returned Ok for a run its adapter is gone, in every later state |
| Lifecycle.DropMeansGoneOrReleasing | src/lib.rs:471-487 | after drop the adapter is gone, or in a watchdog step whose every outcome releases it |
| Lifecycle.NothingLeaks | src/lib.rs:438-487 | once the run state is dropped and the watchdog ended, by any path, the adapter is gone |
| Lifecycle.TeardownCompletes | src/lib.rs:407-487 | from any point of any history at most eleven steps of its own parties end with the adapter of a given-up run gone |
| Lifecycle.AtMostOneAdapter | src/lib.rs:407-430 | with no stop past its flag store, none cancelled and drop not begun, at most one adapter is alive and the flag is set while one is |
| Lifecycle.NewStartOverlapsExactly | src/lib.rs:331-373 | from any point where the flag is clear, a new start makes a second live adapter if and only if one still lives |
| Lifecycle.UnwoundIsStuck | src/lib.rs:331-351 | in every later state the flag is set, nothing is published and every compare-exchange reports that the engine is running |
| PcbList.ScanPcbList | src/platform/macos/process.rs:281-302 | for every table the scan ends, never slices out of range, and gives the pid of the earliest pair of maximal specificity |
| PcbList.ScanVisitsPairs | src/platform/macos/process.rs:281-328 | scanning a serialised table visits exactly its pairs in order |
| PcbList.TruncatedTable | src/platform/macos/process.rs:281-328 | a table cut anywhere holds exactly its complete pairs |
| PcbList.GrowthKeepsOwner | src/platform/macos/process.rs:281-380 | lengthening the header and any records never changes the answer |
| PcbList.ScoreMeansMatch | src/platform/macos/process.rs:332-412 | the score of an encoded socket is the meaning of that socket |
| PcbList.WrongPeerPassedOver | src/platform/macos/process.rs:332-380 | exactly when a connected socket with another peer is passed over |
| Glob.CompiledGlobMeansGlob | src/rule.rs:365-377 | for every glob and text the compiled pattern matches exactly when the glob does |
| Rules.Evaluate | src/rule.rs:208-254 | the loop with its held-back fallback is first match over the specific rules and then the fully wildcard ones, defaulting to direct |
| Rules.ClassOrderDecides | src/rule.rs:208-254 | any reordering that keeps the order inside each class leaves every result unchanged |
| Rules.RulesRunCompiledPatterns | src/rule.rs:281-310 | matching a rule is running the regular expressions it was compiled to |
| Addresses.PrefixPatternIsRange | src/rule.rs:434-460 | for every network, address and prefix length 0 to 128 the masked test is membership in the inclusive range from the network's base |
| Addresses.TrailingStarsAreRange | src/rule.rs:398-432 | octet patterns with only trailing stars match exactly the corresponding range |
| Flow.LoopFreedom | src/netstack.rs:92-301 | every chain of re-entries has at most two flows, and one that starts with our own has one, for every rule set, proxy host and interface |
| Flow.UnattributedChains | src/netstack.rs:93 | without attribution there are chains of every length |
| Flow.UnpinnedChains | src/dial.rs:68-73 | without pinning there are too |
| Flow.GatedLookupDecidesTheSame | src/netstack.rs:227-233 | skipping the cache lookup never changes a decision |
| Flow.TargetIsNamedExactly | src/netstack.rs:276-282 | a known name reaches the proxy exactly when the config asks for it and some rule filters on domains |
| Flow.DroppedWhateverTheRules | src/netstack.rs:92-144 | exactly which flows are dropped under every rule set, process and name: unpinnable ones of ours, foreign group and QUIC traffic |
| Flow.PassedWhateverTheRules | src/netstack.rs:92-144 | exactly which flows no rule set can drop: our own that leave pinned or to loopback, and exempt loopback |
| Flow.Netstack.HandleTcp | src/netstack.rs:236-311 | fail closed: connected to its destination only on a direct decision; a proxied flow reaches the proxy or is closed and counted; every socket opened, also by a proxy handshake that fails, is one of the loop guard |
| Socks5.Connect | src/proxy.rs:141-183 | succeeds exactly on usable conversations, consumes exactly the conversation, and sends nothing before what precedes it was accepted |
| Socks5.ConversationReadBack | src/proxy.rs:141-183 | an accepting conversation followed by any tunnel data reads back as itself |
| Socks5.ConversationIsOnWire | src/proxy.rs:141-183 | only streams that begin with an accepting conversation are read as one |
| Socks5.ConnectRequestReadBack | src/proxy.rs:206-228 | section 4 of RFC 1928 decodes every request sent; refused exactly for names empty or over 255 bytes |
| Socks5.UserPassReadBack | src/proxy.rs:193-204 | section 2 of RFC 1929 decodes every login sent; refused exactly over 255 bytes |
| HttpConnect.ChunkIndependence | src/proxy.rs:82-102 | every split of a head of at most 65536 bytes ends the loop with exactly that head |
| HttpConnect.HeadFoundExactly | src/proxy.rs:84-102 | a head followed by anything is found exactly when some read ends where it ends and began within the limit |
| HttpConnect.StatusReadBack | src/proxy.rs:130-137 | for every version text, code and continuation the second word of the status line is the status |
| Routes.Create | src/platform/linux/adapter.rs:58-96 | for every failure point: succeeds exactly without failures with the whole plan installed, and otherwise leaves the table less our routes |
| Routes.TearDownRestoresExactly | src/platform/linux/adapter.rs:58-135 | up and down restores the table exactly when no group route just like ours, in interface, protocol and scope, was there |
| Routes.HardKillRestoresExactly | src/platform/linux/adapter.rs:43-47 | a hard kill leaves the table as it was exactly when each group network already had a route |
| Routes.Capture | src/platform/mod.rs:69-78 | for every earlier table an address keeps a route at least as long as ours and otherwise takes ours |
| Routes.CapturedExactly | src/platform/mod.rs:69-78 | exactly which addresses are drawn into the tunnel |
| Bytes.Utf8Concat | src/dns.rs:225-235 | valid labels joined stay valid text |
| DnsName.VisitFindsLabels | src/dns.rs:225-235 | every label visited is non-empty valid UTF-8 |
| DnsName.VisitBounded | src/dns.rs:195-237 | the labels visited take at most the bytes left plus one message length per jump |
| DnsName.DotJoinIsUtf8 | src/dns.rs:230-234 | the name produced is valid UTF-8 |
| DnsName.VisitExtends | src/dns.rs:195-237 | a name read from a message reads the same, with the same offset, in any extension of it |
| DnsName.VisitMoreJumps | src/dns.rs:212-224 | more allowed jumps never change a name that was read |
| DnsName.EndIsInPlace | src/dns.rs:204-218 | the offset after a name depends only on its in-place bytes |
| DnsMessage.ParseRecord | src/dns.rs:158-187 | the record step reads exactly the record the grammar puts at the offset, or stops |
| DnsMessage.ParseAnswers | src/dns.rs:153-188 | the answer loop gives the address records read so far, in order |
| DnsMessage.ParseDnsAnswers | src/dns.rs:110-191 | the whole parser equals its recursive reading for every payload, including refused headers |
| DnsMessage.ReadRecordExtends | src/dns.rs:158-187 | a record read from a message reads the same in any extension |
| DnsMessage.SkipQuestionsExtends | src/dns.rs:142-151 | so do the questions |
| DnsMessage.NoQuestionIsMisread | src/dns.rs:133 | a concrete message whose address is lost |
| DnsMessage.NoQuestionReadsOne | src/dns.rs:132-151 | every message announcing no question is read as if it announced one |
| DnsMessage.LoneRecordIsLost | src/dns.rs:132-188 | without a question the only record is lost, whatever its name and data, for every time to live below 2^24 |
| DnsWire.NameWritten | src/dns.rs:195-237 | an encoded name, with a pointer to any earlier name or suffix, is walked back to the labels it stands for |
| DnsWire.NameReadBack | src/dns.rs:195-237 | the same with any bytes behind it and within the jump limit |
| DnsWire.QuestionsReadBack | src/dns.rs:132-151 | encoded questions are skipped to exactly their end |
| DnsWire.RecordReadBack | src/dns.rs:158-187 | an encoded record reads back its type, class, data and end |
| DnsWire.RecordsReadBack | src/dns.rs:153-188 | encoded records give exactly the address answers expected of them |
| DnsCache.Cache.constructor | src/dns.rs:42-47 | a new cache has an empty history |
| DnsCache.Cache.StoreName | src/dns.rs:50-61 | history grows by the store and the entries stay those of the history |
| DnsCache.Cache.PurgeExpired | src/dns.rs:75-80 | history grows by the purge and the entries stay those of the history |
| DnsCache.Cache.Len | src/dns.rs:83-91 | over all calls so far: the number of addresses history still remembers |
| DnsCache.Cache.SnoopResponse | src/dns.rs:100-104 | history grows by the parser's answers in order |
| DnsCache.RunIsFaithful | src/dns.rs:50-80 | after any history an entry is that of the latest store, and a missing one has expired |
| DnsCache.CacheAgreesWithHistory | src/dns.rs:50-72 | the entries of any history answer the latest non-empty name within its time to live |
| DnsCache.LengthCountsRemembered | src/dns.rs:83-91 | the live addresses are exactly those history still remembers |
| DnsCache.SnoopedNamesAreFound | src/dns.rs:100-104 | after any history and a well-formed response each of its addresses has the first question's name |
| Lifecycle.StepKeepsInv | src/lib.rs:331-487 | every step of every party keeps the engine, call and run invariants |
| Lifecycle.StartKeepsCall | src/lib.rs:331-403 | steps of `start` keep what is known of every call |
| Lifecycle.StartKeepsRun | src/lib.rs:353-403 | … and of every run |
| Lifecycle.StopKeepsCall | src/lib.rs:407-430 | steps of `stop` keep what is known of every call |
| Lifecycle.StopKeepsRun | src/lib.rs:407-430 | … and of every run |
| Lifecycle.TaskKeepsRun | src/lib.rs:438-463 | steps of the netstack and the watchdog, failures included, keep what is known of every run |
| Lifecycle.DropKeepsRun | src/lib.rs:471-487 | steps of drop keep what is known of every run |
| Lifecycle.GoneForGood | src/lib.rs:353-487 | an adapter that is gone stays gone |
| Lifecycle.StepMovesForward | src/lib.rs:331-487 | no step moves an adapter away from being gone or strikes a taker |
| Lifecycle.TwoAdaptersCanOverlap | src/lib.rs:413-418 | a history with two live adapters |
| Lifecycle.RunningCanOutliveAdapter | src/lib.rs:322-324 | a history in which the engine runs and its adapter is gone |
| Lifecycle.RunningHasAdapterUntilNetstackEnds | src/lib.rs:322-324 | before its netstack ends a running engine has its adapter |
| Lifecycle.GivenUpRunProgresses | src/lib.rs:407-487 | a run taken by a stop or by drop always has a step of its own parties that brings its adapter closer to being gone; the netstack is relied on only once it was told to stop |
| Lifecycle.OneUnretired | src/lib.rs:331-414 | two runs that still have the flag behind them are the same run |
| Lifecycle.StraysAlwaysExplained | src/lib.rs:418 | a live adapter whose run state is dropped was left by a cancelled stop or by drop |
| Lifecycle.StartCanUnwind | src/lib.rs:374-388 | a history in which a start unwinds and the flag stays set |
| PcbList.OwnerIsUnique | src/platform/macos/process.rs:290-301 | that pid is unique |
| PcbList.OwnerIgnoresOrder | src/platform/macos/process.rs:290-301 | when the maximal pairs agree on the pid the answer does not depend on table order |
| PcbList.NextPairWritten | src/platform/macos/process.rs:307-328 | a written pair is delimited exactly, or not at all when it is cut |
| PcbList.GrowthKeepsScore | src/platform/macos/process.rs:332-380 | records lengthened by a newer kernel score the same |
| PcbList.WrongPeerIsAttributed | src/platform/macos/process.rs:363 | a connected socket with another peer scores 2: a concrete socket |
| Glob.CompileGlob | src/rule.rs:365-377 | the loop builds the anchored, case-insensitive pattern text |
| Glob.CompiledPatternRead | src/rule.rs:365-377 | read as a regular expression, no character of the glob is taken for syntax |
| Glob.DotStarIsOneLine | src/rule.rs:370 | a compiled star matches exactly the newline-free runs |
| Addresses.MatchParts | src/rule.rs:417-431 | the octet loop accepts exactly the addresses every non-star part equals |
| Addresses.MaskIsHighBits | src/rule.rs:458 | the shifted mask is the high bits |
| Addresses.MaskClearsLowBits | src/rule.rs:458-459 | masking clears exactly the low bits |
| Addresses.InPrefixIsSameBlock | src/rule.rs:443-460 | the masked test is membership in the same block |
| Addresses.PrefixIsRange | src/rule.rs:443-460 | … and in the inclusive range from its base |
| Addresses.LongerPrefixIsNarrower | src/rule.rs:443-460 | a longer prefix matches less |
| Rules.WildcardsCommute | src/rule.rs:208-254 | moving a fully wildcard rule past a specific one changes nothing |
| Rules.OutcomeIgnoresDomain | src/rule.rs:193-195 | without domain filters the result does not depend on the domain |
| Rules.FirstIgnoresDomain | src/rule.rs:294-310 | … nor does the first match of any such list |
| Rules.StripExeUndoesSuffix | src/rule.rs:353-362 | stripping undoes an added `.exe` in any case |
| Rules.ExeSuffixIgnored | src/rule.rs:281-292 | names match the same with and without `.exe` on the process or the rule |
| Rules.ReorderingKeepsClass | src/rule.rs:208-254 | … because the rules of each class are met in the same order |
| Flow.OwnFlowsLeave | src/netstack.rs:93-108 | our own flows are never proxied and are dialled only pinned or to loopback |
| Flow.HopIsToOwn | src/dial.rs:61-112 | a re-entry goes from a foreign flow to one of ours |
| Flow.KnownNameNotPassedOn | src/netstack.rs:276-282 | a concrete rule set for which it does not |
| Flow.WithId | src/state.rs:102-107 | finds a config with the id, and fails only when there is none |
| Flow.BuildConfigs | src/lib.rs:243-254 | built configs are never empty and are numbered from 1 in order |
| Flow.BuiltConfigFound | src/state.rs:102-107 | in a built engine every proxy decision has a config: the one named, else the first |
| Flow.Netstack.constructor | src/netstack.rs:161-166 | counters start balanced |
| Flow.Netstack.Accept | src/netstack.rs:179-195 | an accepted flow is counted once and pending |
| Flow.Netstack.HandleUdp | src/netstack.rs:314-347 | dropped under exactly one counter, or relayed directly even on a proxy decision |
| Flow.ProxyDownClosesFlow | src/netstack.rs:284-297 | with the proxy down a flow sent there is closed and counted once as blocked and as fallback |
| Socks5.ReplyReadBack | src/proxy.rs:230-253 | a success reply of any address type, with any bytes behind it, reads back |
| Socks5.ReplyIsOnWire | src/proxy.rs:230-253 | only streams that begin with such a reply are read as one |
| Socks5.OffersHonoured | src/proxy.rs:146-168 | a login is given only if offered; exactly when every offer can be honoured |
| Socks5.Stream.constructor | src/proxy.rs:60-62 | a new connection has nothing read or logged |
| Socks5.Stream.WriteAll | src/proxy.rs:149 | logs what was sent |
| Socks5.Stream.ReadExact | src/proxy.rs:150-151 | takes exactly the bytes asked for, or all that is left and fails |
| Socks5.ReadSocksReply | src/proxy.rs:230-253 | succeeds exactly on a success reply and then has consumed exactly it; the scratch buffer suffices |
| Socks5.Negotiate | src/proxy.rs:146-176 | succeeds exactly on an acceptance the client can use and then has consumed exactly it |
| Socks5.LongPasswordOfferedNotGiven | src/proxy.rs:146-168 | a concrete password whose login is offered and never given |
| HttpConnect.DecimalReadBack | src/proxy.rs:136 | decimal text reads back as its number |
| HttpConnect.AwaitConnected | src/proxy.rs:82-111 | the loop over reads ends with the specified head, or with end of stream or size failure, and connects exactly on status 200 |
| HttpConnect.HeadAtBoundary | src/proxy.rs:84-102 | until the read that completes the head nothing stops the loop but the limit |
| HttpConnect.TunnelDataHidesHead | src/proxy.rs:93 | a concrete head hidden by one byte behind it |
| HttpConnect.NextByteHidesHead | src/proxy.rs:93 | for every head, one byte behind it in the same read hides it |
| Routes.RemoveAllIsWithout | src/platform/linux/adapter.rs:120-126 | removal in reverse takes out exactly our routes from any table |
| Routes.InstalledRoutes | src/platform/linux/netcfg.rs:209-228 | installing keeps every earlier route and adds only listed ones |
| Routes.RollbackRestores | src/platform/linux/adapter.rs:98-135 | installing and removing any list leaves the first table less our routes |
| Routes.OwnMulticastRouteIsLost | src/platform/linux/adapter.rs:77-79 | a concrete table that is not restored |
| Routes.HardKillLeavesGroups | src/platform/linux/adapter.rs:43-47 | after a hard kill exactly the group routes stay |
| Routes.LookupIsLongest | src/platform/mod.rs:67-72 | the modelled lookup is longest-prefix routing |
| Routes.InstallAllLookup | src/platform/linux/adapter.rs:86-93 | after installing, an address takes the longer of its old route and the best one offered |
| Routes.NetworksByOctet | src/platform/mod.rs:69-78 | the group networks hold exactly the multicast addresses and the halves split each family |
| Routes.Kernel.constructor | src/platform/linux/netcfg.rs:209-228 | the table as it is found |
| Routes.Kernel.AddRoute | src/platform/linux/netcfg.rs:209-228 | adds unless the network has a route; an existing one counts as added |
| Routes.Kernel.DeleteRoute | src/platform/linux/netcfg.rs:235-277 | deletes only a route of the handle's network, interface, protocol and scope |
| Routes.Kernel.LoseInterface | src/platform/linux/adapter.rs:129-135 | the interface's routes go with it |
| Routes.Adapter.constructor | src/platform/linux/adapter.rs:59-63 | an adapter starts without routes |
| Routes.Adapter.InstallRoute | src/platform/linux/adapter.rs:98-103 | a route is recorded exactly when it was added |
| Routes.Adapter.RemoveRoutes | src/platform/linux/adapter.rs:120-126 | takes out exactly our routes, whatever the table holds; a second time it does nothing |
| Routes.Adapter.Drop | src/platform/linux/adapter.rs:129-135 | and then whatever still points at the tunnel |
| Routes.Adapter.Setup | src/platform/linux/adapter.rs:77-93 | installs the plan in order up to the first failure |

## Left out

- System calls: WinTun, netlink messages, ioctl, sysctl, capability checks, `/sbin/route` and socket options; the kernel's main table holds one route per network with its interface, protocol and scope, without metrics, gateways or other tables.
- The Windows and macOS adapters, which follow the same pattern as the Linux one.
- The connected routes that come and go with the tunnel's own address, and deletions that fail for a reason other than the route being gone.
- The relay loops, `copy_bidirectional`, timeouts, idle expiry and the packet stack; a write that fails ends a handshake with an error and is not modelled.
- Process lookup on Linux and Windows, and the macOS sysctl retry and cache; the owner of a flow is a parameter.
- `src/device.rs`, logging, callbacks, error texts and kinds, configuration builders other than the numbering of proxy configs.
- Base64 and the text of the HTTP CONNECT request.
- Splitting rule text into lists, trimming, and parsing address, port and prefix literals: rules start from parsed patterns.
- Non-ASCII names: case folding in globs, the character boundary where an `.exe` suffix is cut, and the size limit of compiled regular expressions.
- Poisoned locks, a log callback that panics at the very end of `stop`, and several adapters sharing one route table while a start overlaps an unfinished stop.
- DnsWire.RoundTrip: covers one question or more, labels of 1 to 191 bytes and at most ten pointers per name, because messages outside that are not read back as written.
