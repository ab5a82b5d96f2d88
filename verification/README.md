# Rainbow's own logic, verified

Rainbow is an IPFS HTTP gateway. Most of it wires libraries together; this
project models the parts that hold logic of their own and proves what they
promise. `dafny verify dfyconfig.toml` checks everything.

| file | models |
|---|---|
| `Lifecycle.dfy` | main.go: servers, startup and periodic collection, shutdown, as a step system over all interleavings |
| `BlockGc.dfy` | gc.go: the deletion loop and the periodic target, on a node object whose store it updates |
| `GcInterleaving.dfy` | gc.go and the `/mgr/gc` handler: any number of collections at once, with writers |
| `Blockstores.dfy` | setup.go and handlers.go: the context-switching blockstore, the handler in front of it, isolation of requests |
| `Seeds.dfy` | keys.go, main.go, setup.go: derived identities and `/p2p/rainbow-seed/N` placeholders |
| `Resolvers.dfy` | autoconf.go and main.go: resolver and bootstrap lists with autoconf disabled |
| `Gateways.dfy` | handlers.go: the public gateway table and the DNSLink safelist |
| `Resources.dfy` | rcmgr.go: budget split and inbound limits |
| `Sampling.dfy` | tracing.go: the sampler over whole trees of spans |
| `Peerstores.dfy` | setup_bitswap.go: address merging between two peerstores |
| `Cids.dfy`, `MachineInts.dfy`, `Text.dfy`, `Wrappers.dfy` | block identifiers, 64-bit integers, strings, options and results |

Code that updates things in place is modelled by methods on objects and arrays,
each proved against a specification function; the lemmas are about those
functions, or about all runs of a step system.

## What turned out false, and when it holds

- Shutdown can hang. The `quit` channel has three slots and two servers that may
  each send to it once, so accepted OS signals can leave main waiting for a
  server that cannot send. `Lifecycle.NeverWedgedIff`: a run can get stuck exactly
  when a server may fail and accepted signals and failures reach five
  (`Lifecycle.ThreeSignalsWedge`, `Lifecycle.FourSignalsWedge`).
- Stopping the timer does not stop collections. `Lifecycle.StopPreventsCollections`:
  another one can follow exactly when one is under way at that moment, because
  it re-arms the timer when it ends (`Lifecycle.RunWithCollectionAfterStop`).
- The repository README (line 154) calls `BytesToFree` an upper limit, up to which
  space is cleared as needed for the threshold. The code takes it as a target to
  reach and does not look at the threshold. For collections in which nothing
  fails, `BlockGc.TargetIsUpperLimitIff`: the limit is kept exactly when some prefix
  of the listing holds precisely that many bytes or the whole listing holds no
  more; and `BlockGc.ThresholdIsKeptIff`: no more is deleted than the threshold
  needs exactly when every prefix, short of the whole listing, that holds what it
  needs also holds `BytesToFree`. `BlockGc.OneByteTakesBlock` breaks both;
  `BlockGc.LimitIsKeptIff` says for all collections when a limit is kept.
- docs/environment-variables.md:293 says that `auto` in any configuration is an
  error while autoconf is disabled. `Resolvers.FailsIff`: resolver lists fail
  exactly when it is the last binding of some domain; overridden or bare
  placeholders go unnoticed (`Resolvers.OverriddenPlaceholderIsIgnored`,
  `Resolvers.BarePlaceholderIsIgnored`).
- docs/environment-variables.md:264-272 makes the safelist the whole condition
  for DNSLink, subdomains included. `Gateways.DNSLinkIff`: a domain resolves DNSLink
  exactly when the safelist allows it and nothing else keeps it from that.
  Trustless domains are kept from it; so are, as soon as there is a safelist, a
  localhost that neither gateway list names and every domain without a table
  entry of its own, subdomains of safelisted ones among them
  (`Gateways.SubdomainIsRefused`, `Gateways.ListedDomainsAreRefused`).
- setup_bitswap.go:43-45 says that addresses rooted in DNS pass the filter. They are
  dropped unless public, as IP addresses are (`Peerstores.DnsIsFiltered`), as the
  comment at lines 63-68 has it.
- The two budgets add up except for a whole of a single unit, whose share rounds
  to zero and falls back to the machine's own limit (`Resources.SplitAddsUpIff`,
  `Resources.SingleUnitIsExceeded`).

One more failure depends on the limit library, which is not part of this model.
The configuration asks for unlimited inbound streams. If building the limits keeps
that value, it is left alone (`Resources.UnlimitedStreamsCanStay`). If building
puts a positive number in its place, the number keeps its ratio to the connection
limit exactly when the product fits in 64 bits (`Resources.RescaleKeepsRatioIff`);
the largest integer turns negative exactly when the new connection limit is
even (`Resources.LargestStreamLimitWrapsIff`, and from a host of 100 MiB
`Resources.UnlimitedStreamsCanWrap`).

## Assumptions

- Closing a server makes its `ListenAndServe` return, and each collection ends.
  Signals that find the channel full are dropped, as signal.Notify documents.
  A timer's channel holds no stale value after Stop or Reset (Go 1.23 and later).
- A failed delete changes nothing. A lookup that fails reports any size.
- A host without an entry in the table of public gateways falls back on the
  global DNSLink flag, and an entry is for exactly the host it names.
- What building the resource limits makes of special values is free, as long as
  positive fields are kept.
- A block always has the same size, since its CID names its content.
- Key derivation with the printing of peer ids, the classification of addresses
  as public, and the ratio sampler are parameters of the members that use them.
- Floating factors are exact: reals for the threshold, integer fractions for
  0.85 and 0.75, with floor.
- The embedded host adds the addresses it is given before it dials, as
  setup_bitswap.go:32-34 describes.

## Model

| member | source | states |
|---|---|---|
| Lifecycle.RunsAreSafe | main.go:939-997 | in every run at most one periodicGC is under way, the timer is never armed during a scheduled one, and main has returned only if both servers and the collector are gone and the stop channel was used exactly once (never, without an interval) |
| Lifecycle.ClosersAtReturn | main.go:985-997 | main can return before a server's closing goroutine is done exactly when that server had failed and reported it |
| Lifecycle.ReturnLeavesClosers | main.go:985-997 | a run in which main returns with neither closing goroutine done |
| Lifecycle.CollectionsAreSeparated | main.go:949-979 | in every run a scheduled collection starts, with no other under way, at least one interval after the end of any collection before it, the startup one included |
| Lifecycle.TimerIsDueIff | main.go:961-976 | in every run, once the timer is armed, at first or after a collection, the next collection can start exactly when the interval is over, whatever the others do short of stopping timer or collector |
| Lifecycle.RunsStartInOrder | main.go:939-983 | in every run the startup collection runs with the gateway started and nothing else, the collector starts after both servers, and main shuts down only for an accepted signal or a reported failure |
| Lifecycle.StopPreventsCollections | main.go:988-991 | after Stop another collection is possible exactly when one was under way |
| Lifecycle.RunWithCollectionAfterStop | main.go:971-990 | for every interval, a run from the start in which a collection starts after the timer was stopped |
| Lifecycle.QuietForever | main.go:989-990 | once the timer is stopped with the collector waiting, no run collects again |
| Lifecycle.WedgedIffBlockedOnQuit | main.go:982-996 | the only stuck shutdown: all else is over and a failed server faces a full quit channel |
| Lifecycle.WedgedForever | main.go:982-996 | a stuck shutdown stays stuck, whatever signals follow |
| Lifecycle.ThreeSignalsWedge | main.go:907-913 | three accepted signals and two failing servers leave main waiting, with or without an interval |
| Lifecycle.FourSignalsWedge | main.go:907-913 | and so do four accepted signals and one failing server |
| Lifecycle.NeverWedgedIff | main.go:907-997 | for every budget of signals and server failures: no interleaving within it gets stuck exactly when no server may fail or the two are at most four together, of at most two failures |
| Lifecycle.ShutdownCompletes | main.go:982-997 | while no server has failed, or signals and failures are at most four, some goroutine can step, without a server failing, until main returns, and no failed server is held up; shutdown takes at most 14 steps plus 3 per further collection, and using them all means main has returned |
| Lifecycle.StopFirstBoundsShutdown | main.go:969-990 | if the collector prefers a waiting stop to its timer, at most 11 steps follow once the timer is stopped |
| Lifecycle.WorkRunsOut | main.go:982-997 | every goroutine step during shutdown uses up work; only a further collection adds some |
| Lifecycle.RunKeepsInv | main.go:939-997 | the invariant of all runs: wait group, quit channel, goroutines, timer and collection times agree |
| BlockGc.Node.GC | gc.go:13-54 | without a local store nothing happens; otherwise exit and store are those of the specification, the first keys of the listing removed and the rest untouched |
| BlockGc.Node.PeriodicGC | gc.go:56-78 | fails without disk data, does nothing when less than a byte of the threshold's share of the disk is not free, and otherwise collects the shortfall |
| BlockGc.TargetIsShortfall | gc.go:63-77 | the target is the number of whole bytes by which free space falls short of the threshold's share of the disk |
| BlockGc.PeriodicGcMeetsThreshold | gc.go:56-78 | a smooth collection leaves less than a byte missing of that share or deletes all it listed, and something was missing before its last delete |
| BlockGc.ExitsAreExplained | gc.go:23-44 | on every exit the removed keys are a prefix of the listing, each deleted while bytes were left, and the exit is the reason the next was not; sizes may be missing, negative or wrap |
| BlockGc.DeletesShortestPrefix | gc.go:23-44 | when nothing fails exactly the shortest prefix that reaches the target goes, or all; the overshoot is below the last block; bytes before are bytes after plus bytes deleted |
| BlockGc.BytesAreConserved | gc.go:36-40 | deleting a prefix of distinct stored keys takes away exactly its bytes |
| BlockGc.LimitIsKeptIff | handlers.go:78-96 | whatever fails, no more than a limit goes exactly when some place where the loop stops has no more than that before it |
| BlockGc.TargetIsUpperLimitIff | handlers.go:78-96 | when nothing fails, exactly when the requested bytes bound what is deleted |
| BlockGc.ThresholdIsKeptIff | handlers.go:78-96 | when nothing fails, exactly when a request deletes no more than the periodic collection would for its shortfall |
| BlockGc.OneByteTakesBlock | gc.go:23-44 | a request for one byte deletes ten from a disk with more free space than asked for |
| BlockGc.TargetIsExactIff | gc.go:63-77 | the unsigned subtraction and signed conversion are exact exactly when the shortfall is below 2^63 |
| BlockGc.TargetNeverWraps | gc.go:63-77 | with a threshold in [0,1] and a disk below 2^63 bytes nothing wraps or turns negative |
| BlockGc.PeriodicGcSettles | gc.go:56-78 | a smooth collection reaches the free space asked for or deletes all it listed, and then the next one deletes nothing |
| GcInterleaving.OnlyListedKeysGo | gc.go:23-44 | in every interleaving of collections and writes a missing block was listed to a collection that deleted it, and each collection's deletes are a prefix of its listing |
| GcInterleaving.EachMindsItsTarget | gc.go:24-40 | in every interleaving a collection deletes as long as the sizes reported to it leave something of its own target, and finishes only when they leave nothing or its listing is exhausted; every report without an error is the block's true size |
| GcInterleaving.BytesAreConserved | gc.go:23-44 | in every interleaving bytes before and bytes written are bytes after and bytes deleted, over all collections |
| GcInterleaving.EachCollectionIsASweep | gc.go:23-44 | linearizability: however collections and writers interleave, each that has ended has the exit and the number of deletions of the deletion loop alone on all blocks ever written, when exactly the lookups that failed in the run fail, with the sizes they reported there, the failed delete and the cancellation are the run's, and all other sizes are the blocks' own |
| GcInterleaving.LoneCollectionIsASweep | gc.go:23-44 | a collection without company ends with the exit, the deletions and the store of the deletion loop on its store, with the failures of its own run |
| GcInterleaving.EverySweepIsALoneCollection | gc.go:23-44 | and for every conduct some collection without company ends as the deletion loop does |
| GcInterleaving.CollectionsEnd | gc.go:23-44 | each collection ends within two of its own steps per listed key and one more, whatever the sizes, and never waits for another |
| MachineInts.Sub64Is | gc.go:40-40 | the subtraction from the target is exact in 64 bits and 2^64 away beyond them |
| Blockstores.SwitchingBlockstore.Perform | setup.go:593-627 | an operation acts on the context's store, or the shared one without it, and on no other |
| Blockstores.WithTracingAndDebug | handlers.go:403-430 | when a request is refused, and that a fresh empty store is put in its context exactly when a token is configured, the request carries it and asks for it with "true" |
| Blockstores.PrivateStoresNeedToken | handlers.go:409-426 | the requests with a private store, which starts empty, are exactly those |
| Blockstores.AdmittedIff | handlers.go:409-421 | who is let in, in terms of token and headers alone |
| Blockstores.Isolation | setup.go:588-627 | in every interleaving the shared store and each private one end, and answer their requests, as if they had run alone |
| Blockstores.NonInterference | setup.go:588-627 | leaving out all cache-skipping requests changes neither the shared store nor what the other requests see |
| Blockstores.PrivateRequestsStartEmpty | handlers.go:416-426 | a cache-skipping request sees only what it stored itself |
| Blockstores.PrivatePutStaysPrivate | setup.go:593-619 | a block that a cache-skipping request puts is found by it and changes nothing for ordinary requests |
| Blockstores.Serve | setup.go:593-627 | interleaved requests on store objects do what the trace semantics says |
| Blockstores.HandleRequests | handlers.go:406-429 | from headers to stores: over any interleaving of admitted requests the shared store ends, and those that do not skip it are answered, as if they had run alone; each that skips it is answered as if alone on an empty store |
| Seeds.KeyInfoSpellsIndex | keys.go:75-77 | the info of every index is "rainbow-" and that index in decimal, without leading zeros |
| Seeds.KeyInfoInjective | keys.go:75-77 | different indices give different derivation infos |
| Seeds.DerivePeerIDs | keys.go:51-73 | every index up to the maximum but our own contributes exactly its instance's identity, in its slot; fails exactly when one of those derivations does |
| Seeds.IndexLoopEndsIff | keys.go:54-54 | the 64-bit counter passes the maximum exactly when that is not the largest integer, and until then is the index |
| Seeds.SlotsAreOrdered | keys.go:54-69 | slots are in increasing order of index |
| Seeds.SlotsAreFilled | keys.go:54-69 | and each of them is taken by an index |
| Seeds.SetupPeering | setup.go:509-546 | configured peers first, then the derived ones; succeeds exactly when peering is off, or the indices are not negative and all derivations succeed |
| Seeds.PeeringAddrs | main.go:639-654 | placeholders are replaced when this instance has a seed and an index, and refused otherwise |
| Seeds.ValueOfPrint | main.go:1069-1074 | parsing a printed index gives it back |
| Seeds.ValueIsPlaceSum | main.go:1069-1074 | parsing sums each digit times its power of ten |
| Seeds.PrintOfValueStrips | main.go:1069-1074 | printing a parsed index gives it back without leading zeros |
| Seeds.MatchIsFirstOccurrence | main.go:1064-1084 | the first occurrence of the matched text is the match itself |
| Seeds.SplicesLeftmost | main.go:1063-1085 | the replacement splices at the leftmost match over its longest run of digits; fails exactly when the index is out of range or underivable |
| Seeds.NoMatchNoChange | main.go:1064-1067 | an address without a placeholder is returned as it is |
| Seeds.ReplacementDropsOneIff | main.go:1063-1085 | for base58 ids of any length each success uses up one placeholder, unless the id and the text behind the match spell another, when as many are left |
| Seeds.ReplacementDropsOne | main.go:1063-1085 | which ids of eight or more characters, as all real ones, never do |
| Seeds.SinglePlaceholderSettles | main.go:1063-1085 | an address with at most one placeholder is settled by one replacement |
| Seeds.ShortIdsLeavePlaceholders | main.go:1063-1085 | two addresses, with ids of seven and of three characters, that have one placeholder before and after a successful replacement |
| Seeds.PlaceholderNamesInstance | main.go:1069-1084 | the placeholder of index N, with any leading zeros, becomes the identity instance N derives for itself |
| Resolvers.ExpandResolvers | autoconf.go:90-111 | with autoconf disabled expansion gives the bindings, or fails when some value is the placeholder, whatever the iteration order |
| Resolvers.ParseEntryIff | autoconf.go:92-98 | an element binds a domain to a URL exactly when it writes the one, a colon and the other with any white space around them; it binds nothing exactly when it has no colon |
| Resolvers.LastWriteWins | autoconf.go:91-99 | a domain maps to the URL that the last element to write one for it writes |
| Resolvers.FailsIff | autoconf.go:101-108 | expansion fails exactly when the last URL written for some domain is the placeholder |
| Resolvers.PlaceholderFails | autoconf.go:91-108 | the placeholder for eth. fails, with any white space after name, colon and placeholder |
| Resolvers.ShortPlaceholderFails | autoconf.go:91-108 | and so does "eth.:auto" |
| Text.SpacesAre | autoconf.go:96-97 | tabs, line ends and blanks are trimmed, and no printing ASCII character is |
| Resolvers.BarePlaceholderIsIgnored | autoconf.go:93-98 | a placeholder without a domain is skipped |
| Resolvers.OverriddenPlaceholderIsIgnored | autoconf.go:91-108 | a placeholder bound to a domain and overridden does not fail |
| Resolvers.PrintResolvers | main.go:835-838 | prints each binding once, as domain, " : " and URL, in whatever order, and parsing the result gives the map back exactly when it is canonical |
| Resolvers.RoundTripIff | main.go:835-838 | a map survives printing in any order and parsing exactly when keys are trimmed and colon-free and values trimmed |
| Resolvers.ParsePrintParse | autoconf.go:91-99 | every parsed map survives printing and parsing |
| Resolvers.ExpandBootstrap | autoconf.go:67-82 | fails exactly when some comma-separated entry trims to the placeholder, and otherwise lists the trimmed entries |
| Resolvers.BootstrapEntries | autoconf.go:72-75 | entries written with commas between them are found one by one |
| Gateways.IsDNSLinkAllowed | handlers.go:264-283 | without a safelist all domains, otherwise exactly those whose labels end in those of a safelisted one |
| Gateways.MatchesIffLabelSuffix | handlers.go:273-279 | the character test holds exactly when the allowed name's labels are a suffix of the domain's |
| Gateways.AllowedBelow | handlers.go:276-279 | the helper allows every domain whose labels end in those of a domain it allows |
| Gateways.AllowedGrows | handlers.go:264-283 | it grows with a non-empty safelist |
| Gateways.BuildTable | handlers.go:286-356 | the ordered updates and the write through localhost's pointer give the declarative lookup, with no struct shared between domains; table and global flag together decide DNSLink as stated |
| Gateways.OnlyElementsMatter | handlers.go:295-351 | order and repetition in the lists do not matter |
| Gateways.TrustlessIsTrustless | handlers.go:315-333 | a trustless domain has neither deserialized responses nor DNSLink, example.com in conformance mode excepted |
| Gateways.EntriesServe | handlers.go:286-351 | for every domain with an entry: exactly when it serves subdomains, inlines DNSLink and deserializes, and its paths |
| Gateways.DNSLinkIff | handlers.go:286-356 | for every domain, listed or not: it resolves DNSLink exactly when the safelist allows it and it is neither trustless, nor a default localhost nor without an entry beside a safelist |
| Gateways.SafelistedDomainsResolve | handlers.go:338-351 | a safelisted domain that is neither trustless nor localhost has an entry and resolves DNSLink |
| Gateways.WithoutSafelistAllResolve | handlers.go:264-268 | without a safelist every domain that is not trustless does |
| Gateways.SubdomainsNeedEntries | handlers.go:276-356 | a subdomain of a safelisted domain is allowed but resolves DNSLink exactly when a list names it and nothing keeps it from that |
| Gateways.SubdomainIsRefused | handlers.go:353-356 | the documentation's sub.example.com, allowed and refused |
| Gateways.ListedDomainsAreRefused | handlers.go:286-333 | a safelisted localhost and a safelisted trustless domain, allowed and refused |
| Resources.MakeResourceMgrs | rcmgr.go:18-45 | of the given or default whole the DHT host gets 15% of the memory and 25% of the descriptors, rounded up, and the bitswap host what that leaves, or the machine's default when nothing is left |
| Resources.HostBudgetIs | rcmgr.go:19-24 | a host gets what it is given, and otherwise 85% of the memory or half of the descriptors; its transient scope is a quarter, all rounded down |
| Resources.InboundForIs | rcmgr.go:59-70 | the inbound connections are the whole mebibytes |
| Resources.SplitAddsUpIff | rcmgr.go:34-42 | the budgets add up to the whole exactly when no share of a single unit rounds to zero |
| Resources.SingleUnitIsExceeded | rcmgr.go:34-42 | the budgets for a whole of one unit, which exceed it |
| Resources.TransientStaysWithinQuarter | rcmgr.go:90-92 | the transient scopes of both hosts stay within a quarter of the whole |
| Resources.RaiseInbound | rcmgr.go:150-165 | the inbound connection limit becomes the maximum of itself, twice the high-water mark and 800; streams are rescaled, the transient limit is untouched |
| Resources.RescaledTruncates | rcmgr.go:162-162 | the stream limit is what 64 bits leave of the product, divided and rounded toward zero |
| Resources.RescaleKeepsRatioIff | rcmgr.go:160-163 | the stream limit keeps its ratio to the connection limit exactly when the product fits in 64 bits |
| Resources.RescaleNeverShrinks | rcmgr.go:160-163 | and is then never lowered |
| Resources.LargestStreamLimitWrapsIff | rcmgr.go:160-163 | a stream limit at the top of its range turns negative exactly when the new connection limit is even |
| Resources.UnlimitedStreamsCanWrap | rcmgr.go:81-163 | from partial to final limits: a host of 100 MiB ends with a negative stream limit if building makes unlimited the largest integer |
| Resources.UnlimitedStreamsCanStay | rcmgr.go:81-163 | and with an unlimited one if building keeps it, whatever the memory and the high-water mark |
| Resources.MakeResourceManagerConfig | rcmgr.go:51-176 | from memory to final limits, for whatever the library makes of unset and special values: one inbound connection per MiB raised to twice the high-water mark and 800, from 4 MiB on a transient limit below it, a stream limit that is untouched when special, keeps its ratio and never shrinks while the product fits in 64 bits, and from the largest integer turns negative exactly for an even connection limit |
| Sampling.LocalTracesAreUniform | tracing.go:42-58 | a trace without remote parent is decided on as a whole, every span of it: dropped unless its root's name starts with "Gateway" and the fraction is not zero, and then as the ratio sampler for the fraction decides on the root |
| Sampling.FollowsParent | tracing.go:49-58 | every span below a valid parent takes that parent's decision and trace state |
| Peerstores.DeleteUndialable | setup_bitswap.go:56-56 | the in-place compaction leaves the filtered sequence and clears the rest |
| Peerstores.DialableKeeps | setup_bitswap.go:74-83 | exactly the public addresses and those that start with neither IP nor DNS are kept |
| Peerstores.DnsIsFiltered | setup_bitswap.go:74-83 | an address that starts with DNS is kept exactly when it is public |
| Peerstores.DialableKeepsOrder | setup_bitswap.go:56-56 | the kept addresses stand in their original order, repetitions included |
| Peerstores.PositionsAreDialable | setup_bitswap.go:74-83 | and they come from exactly the dialable positions |
| Peerstores.MergingHost.Connect | setup_bitswap.go:55-61 | a Connect adds the dialable addresses the DHT host knows and those it was given, for that peer only |
| Peerstores.AddressesHaveSources | setup_bitswap.go:55-61 | over any sequence of Connects and expiries every stored address has a source, and without expiry every address with a source is stored |
| Peerstores.OthersUntouched | setup_bitswap.go:55-61 | Connects to other peers leave a peer's addresses alone |

## Left out

- HTTP serving, headers other than those that admit a request, CORS, logging, pprof, metrics, the landing page and CLI flags.
- Construction of libp2p hosts, bitswap, the DHT, routing, name systems and datastores.
- Key derivation, base58 and peer id encoding: a parameter with the results it gives.
- Autoconf-enabled expansion: the logic is in a library.
- HTTP router lists: only a containment test.
- The identity blockstore wrapped around the switching one, which answers for blocks whose CID holds their data.
- Errors of the underlying blockstores in `Blockstores`: a store that fails answers for itself and is not switched.
- Parsing the peering addresses once their placeholders are replaced.
- The shared-host mode of the resource managers, in which one host gets the whole budget.
- Autoscaled resource limits: values that replace defaults.
- Trace ids and attributes in sampling results, and span exporters.
- Fairness of the collector's select: without preferring a waiting stop, shutdown is bounded per further collection, not in how many the runtime picks.
- Invalid UTF-8 in configuration strings.
- Seeds.DerivePeerIDs: indices are unbounded integers, so the endless loop at the largest 64-bit maximum index shows only in `IndexLoopEndsIff`, because a method that verifies ends.
- BlockGc.Node.PeriodicGC: asks for a non-negative threshold whose product with the disk size fits 64 bits, because Go leaves other conversions to the platform.
