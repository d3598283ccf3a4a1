# A verified model of the PADSI cores

PADSI isolates the zones of a workstation: it compiles traffic descriptions into an nft firewall,
runs service processes that talk over pipes, groups mount points for each bubble, manages the
processes inside a bubble, logs refused packets, and hands out networks and clipboard rights. This
project models those parts in Dafny and proves what they promise over every input and every run.
`dafny verify dfyconfig.toml` checks it.

## How it is organised

- **Flows and the firewall.** `Netflow` says which packets a flow stands for, `NftCompile` turns a
  flow into nft matches, `NftChain` evaluates an ordered chain, `FwTool` and `FwToolTheorems` follow
  a chain through any list of calls, `FwVerdicts` its verdicts when the log rule is not found again,
  `FwLogs` what is logged then and where. `FwToolObject` is the object that makes the calls. `Decompile` and
  `Recover` read a listed rule back into a flow. `Inclusion` compares endpoints. `FlowText`,
  `FlowTextLaws` and `FlowRoundTrip` print and parse flows, `FlowParse` says which texts are accepted. `DomainRegex` turns wildcard domains
  into regular expressions.
- **Request and reply.** `SimpleComm` is the protocol as a state machine over all interleavings,
  `SimpleCommObjects` the two objects that take its steps, and any list of calls on them, `CommRuns` what whole runs keep
  to.
- **Mounts.** `MountPoint`, `MountMerge` and `MountSet` group mounts, `MountOrder` and `MountRaises`
  say when that raises, `MountLoss` when it loses a mount, `MountLookup` finds a file, `BoundLookup`
  finds it among directories that were not merged.
- **Init.** `RestartLimiter` bounds restarts, `InitTable` is the process manager as a state machine
  (requests, kernel exits, the reaper between `waitpid` and the lock, restart tasks), `InitLines`
  follows one request over a run, `InitConfig` is the table behind the lock.
- **Packet logger.** `DnsName` reads compressed names, `PacketLog` the headers around them.
- **Configuration.** `Allocator`, `Clipboard`, `InputManager`.

A run is a total function of a list of steps: a step that cannot happen is skipped, so every list is
an interleaving. Exceptions are `Err` or `None`. What comes from outside (clocks, addresses that
exist, files that exist, handler results, the order in which sets are walked) is a parameter.

## Where the code differs from what it says

Each of these is proved, with an input and with the exact condition under which the promise holds.

- The lookup of an existing rule reads the table name in the wrong object and never finds one, so a
  second policy for a flow is appended and has no effect (`SecondPolicyIgnored`).
- Port ranges without a protocol are dropped when a flow is compiled (`CompileExact`,
  `SetFlowExact`).
- A log specification without a group writes a prefix with a trailing space and does not find its
  own catch-all rule again: packets decided after the default turned to "drop" are logged too often,
  verdicts are not affected (`LogsDropsIffGrouped`, `UngroupedLogs`, `LoggedRightlyIff`,
  `ChainDecides`).
- A flow with several addresses on a side, host bits, a 32-bit prefix, `*` with an interface, or a
  port written twice is not recognised in its own rule, nor is one whose range is listed outside a
  set (`OwnRuleRecognised`).
- Inclusion compares ports even for ICMP (`PartOfMeansIncluded`).
- A zone whose mask is written out to 32 bits prints as something that is read differently
  (`FlowRoundTripExact`); an endpoint with ports and no protocol prints as something that is refused
  (`EndpointRoundTripExact`).
- The regular expression of a domain without wildcard is not anchored (`PlainRegexMeansPrefix`).
- Grouping mounts raises for some sets of mounts, and for some of them only in some orders of the
  set: a mount at `/`, or one that is not a directory, takes in only one of the groups below it, and
  the others find no parent (`SomeOrderRaisesIff`, `EveryOrderRaisesIff`, `RootOrders`,
  `FileOrders`). A mount at the path of a group replaces that group: the second of two mounts at one
  path loses the first (`SecondReplacesFirst`), unless a group above took them both in
  (`BothKeptBelow`); nothing is lost exactly when no mount replaces a group (`NothingLostIff`).
  Writing below a mount that is not a directory path does not go under the run directory
  (`WrittenUnderRunDir`).
- Bound directories in each other are not merged when there are no mounts, and the first of the list
  that has an answer gives it, not the longest. This shows when the inner one comes from elsewhere
  than its place in the outer one, as with a link (`LinkedDirectory`), and only then
  (`OwnPlaceServes`; `LongestServesIff` has the exact condition).
- The exit of a restarted process is lost when it comes before its record (`RestartedExitLost`,
  `StaleExactlyWhenDropped`); a clock going back over a window voids the restart limit
  (`ClockBackVoidsLimit`, `SpacedIffClockForward`).
- The loop that should look at the targets of the other zones counts those of the zone itself, which
  gives proxies that are not meant and omits some that are (`ProxyNotMeant`, `ProxyMissing`,
  `ProxyAsIntendedIff`).
- Undeclaring and declaring an interface installs its rules twice (`RedeclaringInstallsTwice`,
  `InstalledOnceIff`).
- Compression pointers count from the start of the packet, not of the DNS message: a name is read as
  meant without them (`SameWithoutPointers`), and with them exactly when the packet has, at the
  offset of the first one, a name with the labels meant (`PointersCountFromPacket`,
  `PointerReadAsMeantIff`).

## Model

| member | source | states |
|---|---|---|
| `Netflow.SplitKeepsPackets` | padsi/fwlib/netflow.py:652-674 | a packet is in some single-protocol piece exactly when it is in the flow |
| `NftCompile.NetflowToNftArgs` | padsi/fwlib/nft.py:41-80 | the argument list; it raises exactly for a second protocol, a zone that is no address, single ports on a side without a protocol, or ports with a protocol other than tcp and udp |
| `NftCompile.ArgsMean` | padsi/fwlib/nft.py:41-80 | all arguments match a packet exactly when the flow, as compiled, has it |
| `NftCompile.CompileExact` | padsi/fwlib/netflow.py:375-379 | the compiled rule matches exactly the flow's packets if and only if no port range comes without a protocol |
| `NftChain.ReplaceBodies` | padsi/fwlib/nft.py:507-539 | inserting before a handle and deleting that handle replaces one rule in place |
| `FwTool.ApplyCarries` | padsi/fwlib/nft.py:393-591 | each call keeps the chain equal to the written form of the decisions taken so far, catch-all last |
| `FwTool.ChainCarriesOutCalls` | padsi/fwlib/nft.py:393-591 | without a log specification or with a group: after any run of calls, verdict and number of log lines of every packet are those of the first decision that has it, else of the default |
| `FwVerdicts.ChainDecides` | padsi/fwlib/nft.py:393-591 | for every log specification, after any run of calls, the verdict of every packet is that of the first decision that has it, else the default |
| `FwTool.RenderDecides` | padsi/fwlib/nft.py:556-573 | first-match evaluation of the written decisions decides as the decisions do |
| `FwToolTheorems.AcceptedWhen` | padsi/fwlib/nft.py:545-573 | a call raises for no protocol piece exactly when ports come with tcp or udp and zones are addresses |
| `FwToolTheorems.SetFlowExact` | padsi/fwlib/nft.py:545-573 | a call is accepted and covers exactly its flow's packets if and only if ports, ranges and zones are well formed |
| `FwToolTheorems.FirstCallDecides` | padsi/fwlib/nft.py:545-573 | after any run of calls, repeated flows included, and for every log specification, the first call whose flow has the packet decides it, else the last default |
| `FwToolTheorems.SecondPolicyIgnored` | padsi/fwlib/nft.py:262-279 | after any run, a second policy for a flow that has one changes no packet's verdict, nor its logging where the catch-all is found |
| `FwToolTheorems.CatchAllIsLast` | padsi/fwlib/nft.py:230-260 | over logging runs the catch-all log rule is the last one, the only one, and there exactly when the default denies |
| `FwToolTheorems.UngroupedLogsAccepted` | padsi/fwlib/common.py:71-74 | a specification without a group has a run that logs an accepted packet |
| `FwToolTheorems.LogsDropsIffGrouped` | padsi/fwlib/nft.py:556-573 | every logging run logs each dropped packet once and no accepted one, if and only if the specification has a group |
| `FwLogs.UngroupedLogs` | padsi/fwlib/nft.py:393-591 | without a group, after any logging run: verdict of every packet, and its number of log lines: one for each time the default had turned to "drop" before the call that decides it, one more if that call drops it |
| `FwLogs.LoggedRightlyIff` | padsi/fwlib/nft.py:230-260 | without a group, a packet is logged once if dropped and else never, if and only if no call had set the default to "drop" before the call that decides it, or, undecided, the default turned once and stayed, or never did |
| `FwLogs.LogsGoWhereAsked` | padsi/fwlib/common.py:71-74 | after any run of calls every statement of every rule is a verdict or logs to the group of the specification under its prefix, or under its prefix and a space if it has no group; without a specification nothing logs |
| `FwToolObject.Tool.NftInsert` | padsi/fwlib/nft.py:556-573 | the new rule goes just before the handle |
| `FwToolObject.Tool.FindChainDenyLogRule` | padsi/fwlib/nft.py:230-260 | the handle of the first rule that only logs with the prefix |
| `FwToolObject.Tool.SetDefaultPolicy` | padsi/fwlib/nft.py:393-445 | the new chain is that of the call in the run model |
| `FwToolObject.Tool.FindRelatedConnectionsPolicy` | padsi/fwlib/nft.py:484-505 | the handle of the first rule accepting related connections |
| `FwToolObject.Tool.SetRelatedConnectionsPolicy` | padsi/fwlib/nft.py:507-539 | the new chain is that of the call in the run model |
| `FwToolObject.Tool.FlowSetPolicy` | padsi/fwlib/nft.py:545-591 | the new chain is that of the call in the run model, also when a piece raises halfway |
| `FwToolObject.Tool.Perform` | padsi/fwlib/nft.py:393-591 | any list of calls made on the object, after any run, leaves the chain of that run and those calls |
| `FwToolTheorems.FlushLeavesDefault` | padsi/fwlib/nft.py:475-482 | after any run and a flush every packet gets the last default, unlogged |
| `Decompile.EndpointObject.AddProtocol` | padsi/fwlib/netflow.py:257-263 | the protocol is there, once, and nothing else changes |
| `Decompile.EndpointObject.SetInterface` | padsi/fwlib/netflow.py:269-279 | a first interface replaces a lone `*`; another one, or a name over 15 characters, raises and changes nothing |
| `Decompile.EndpointObject.AddAddress` | padsi/fwlib/netflow.py:348-360 | the address is there, and replaces a lone `*` |
| `Decompile.EndpointObject.AddPort` | padsi/fwlib/netflow.py:368-373 | the port is there, once |
| `Decompile.EndpointObject.AddPortRange` | padsi/fwlib/netflow.py:381-393 | a proper range is there once, an empty one is a port, exactly a reversed one raises |
| `Decompile.MatchNetflow` | padsi/fwlib/nft.py:123-188 | one listed match changes the flow under construction as its meaning says, or is not understood, or raises (unknown protocol, several addresses, lone range, second interface, interface name too long) |
| `Decompile.RuleMatchNetflow` | padsi/fwlib/nft.py:190-228 | the answer for a rule is that of folding its expressions; two verdicts or different protocols on the two sides raise |
| `Decompile.RecognisedMeans` | padsi/fwlib/nft.py:190-228 | a recognised rule is that of one flow only, has no expression that is not understood, and has at most one verdict, the one reported |
| `Recover.RebuiltExactly` | padsi/fwlib/nft.py:123-228 | rebuilding from any listing of a flow's own rule gives an equal flow if and only if the flow is recoverable and no range is listed outside a set |
| `Recover.OwnRuleRecognised` | padsi/fwlib/nft.py:190-228 | a flow's own rule is recognised with its verdict if and only if the flow is recoverable and no range is listed outside a set |
| `Inclusion.MapPorts` | padsi/fwlib/netflow.py:395-417 | exactly the ports listed alone or in a range, or all of them |
| `Inclusion.IsPartOf` | padsi/fwlib/netflow.py:522-583 | the answer of the loops is interface, protocol, zone and port inclusion as `PartOfIff` says it; a network with host bits raises |
| `Inclusion.ZonePartIff` | padsi/fwlib/netflow.py:546-563 | the test on two zones holds if and only if every address of the one is in the other network, or both are the same address |
| `Inclusion.PartOfIff` | padsi/fwlib/netflow.py:522-583 | the whole test is positive if and only if the other endpoint has no interface or the same, and every protocol, every zone and every port of this one |
| `Inclusion.InNetIsInterval` | padsi/fwlib/netflow.py:546-563 | a host-bit-free prefix is an interval of addresses |
| `Inclusion.PartOfIsSound` | padsi/fwlib/netflow.py:522-583 | a positive answer puts all TCP and UDP traffic of one endpoint in the other |
| `Inclusion.PartOfMeansIncluded` | padsi/fwlib/netflow.py:576-583 | after a positive answer all traffic is included if and only if it is not ICMP against a port list |
| `Inclusion.PartOfReflexive` | padsi/fwlib/netflow.py:522-583 | an IPv4 endpoint is part of itself |
| `Inclusion.PartOfTransitive` | padsi/fwlib/netflow.py:522-583 | positive answers compose |
| `FlowText.ParseZones` | padsi/fwlib/netflow.py:216-247 | the loop over zone items computes the fold that the round trip is about |
| `FlowText.AnalyseProtocolSpec` | padsi/fwlib/netflow.py:153-164 | the loop over protocol items computes the fold that the round trip is about |
| `FlowText.AnalysePortSpec` | padsi/fwlib/netflow.py:166-201 | the loop over port items computes the fold that the round trip is about |
| `FlowParse.AddressIff` | padsi/fwlib/netflow.py:233-236 | a text is taken for an address exactly if it is the text of that address |
| `FlowParse.AddressZoneIff` | padsi/fwlib/netflow.py:233-236 | a zone is read as an address exactly from its text, with or without `/32` |
| `FlowParse.ZonesAcceptedIff` | padsi/fwlib/netflow.py:216-247 | a list of zones is accepted if and only if every item is a zone or an interface name of at most 15 characters, and only an empty name is followed by another |
| `FlowParse.ProtocolsAcceptedIff` | padsi/fwlib/netflow.py:153-164 | a list of protocols is accepted if and only if every item is blank, `tcp`, `udp` or `icmp` |
| `FlowParse.PortsAcceptedIff` | padsi/fwlib/netflow.py:166-201 | a list of ports is accepted if and only if every item is a number from 1 to 65535 or two of them in order around a hyphen |
| `FlowTextLaws.ZoneReadBack` | padsi/fwlib/netflow.py:233-245 | a printed zone is read back, a 32-bit prefix as its address |
| `FlowRoundTrip.PortsReprBack` | padsi/fwlib/netflow.py:425-433 | printed ports and ranges are read back in order |
| `FlowRoundTrip.FlowReadBack` | padsi/fwlib/netflow.py:608-650 | parsing what a flow prints gives the flow, with its protocols on both sides |
| `FlowRoundTrip.FlowRoundTripExact` | padsi/fwlib/netflow.py:608-650 | parsing never fails, and the result equals the flow if and only if no zone is a 32-bit prefix |
| `FlowRoundTrip.EndpointRoundTripExact` | padsi/fwlib/netflow.py:435-478 | an endpoint alone is read back if and only if it does not name ports without a protocol; otherwise parsing raises |
| `DomainRegex.DomainToRegex` | padsi/fwlib/netflow.py:101-120 | replace, split, loop and join build the expression the laws are about |
| `DomainRegex.RegexIsRendered` | padsi/fwlib/netflow.py:103-119 | that text is the anchored concatenation of one piece per character or wildcard of the pattern |
| `DomainRegex.TokensRead` | padsi/fwlib/netflow.py:103-119 | reading the text as a regular expression gives those pieces back |
| `DomainRegex.RegexMeansGlob` | padsi/fwlib/netflow.py:101-120 | the expression matches exactly the names of the wildcard pattern |
| `DomainRegex.PlainRegexMeansPrefix` | padsi/fwlib/netflow.py:120-120 | without a wildcard it matches exactly the names the pattern is a prefix of |
| `DomainRegex.PartOfDecidesMembership` | padsi/fwlib/netflow.py:123-139 | for a name without wildcards the inclusion test decides membership |
| `SimpleComm.RunInv` | padsi/simple_comm.py:145-334 | every interleaving keeps the books: conservation of requests, queues and answers |
| `SimpleComm.ExactlyOnePlace` | padsi/simple_comm.py:145-291 | in every interleaving a sent request is in exactly one place: pipe, job, reply pipe, delivered, returned or lost with a dead peer |
| `SimpleComm.ReturnsOwnAnswer` | padsi/simple_comm.py:199-235 | a returning call gets the outcome the handler gave for its own request, and the handler got that request's data |
| `SimpleComm.AnsweredOnce` | padsi/simple_comm.py:265-291 | no request is answered a second time |
| `SimpleComm.NoOrphanReply` | padsi/simple_comm.py:145-197 | the branch for a reply without a waiting call is never taken |
| `SimpleComm.AnswersAreFinal` | padsi/simple_comm.py:199-291 | no step changes an answer or what a call returned |
| `SimpleComm.WaitingCallCanReturn` | padsi/simple_comm.py:145-334 | from any point of any run, a waiting call has steps, each possible in its turn, that bring it its answer, or lose it only with a client process that is gone |
| `CommRuns.NothingWrittenToGoneClient` | padsi/simple_comm.py:287-325 | from the end of the client process on, whatever happens, the reply pipe holds what is left of the replies written before, and a job that finishes loses its request |
| `CommRuns.ReplyWrittenIff` | padsi/simple_comm.py:287-291 | a job that finishes writes its reply if and only if the client process has not ended |
| `CommRuns.NumbersCountCalls` | padsi/simple_comm.py:215-217 | the last number is the number of calls made, refused ones included |
| `CommRuns.ReadInOrder` | padsi/simple_comm.py:293-334 | requests are read in the order of their calls |
| `SimpleCommObjects.ClientObject.CallServer` | padsi/simple_comm.py:199-235 | at any point of any run the call is a step of the protocol, and its request has a number no request had before; nothing is sent to a server known to be dead, and a message with a number is refused |
| `SimpleCommObjects.ClientObject.CallServerBroken` | padsi/simple_comm.py:199-235 | at any point of any run a call on a broken pipe is lost, and from then on the server is known to be dead |
| `SimpleCommObjects.ClientObject.OnReply` | padsi/simple_comm.py:145-197 | at any point of any run the reply read finds its queue, gets there the answer of its own request, and no other queue is touched |
| `SimpleCommObjects.ClientObject.FinishCall` | padsi/simple_comm.py:199-235 | at any point of any run the caller gets what the server answered its own request with, once |
| `SimpleCommObjects.ServerObject.StartJob` | padsi/simple_comm.py:293-334 | at any point of any run the request read had no job and no answer, and its job has the data its call sent |
| `SimpleCommObjects.ServerObject.EnterHandler` | padsi/simple_comm.py:407-409 | at any point of any run a job enters the handler exactly if no other is in it, and the handler gets what the call sent |
| `SimpleCommObjects.ServerObject.FinishJob` | padsi/simple_comm.py:265-291 | at any point of any run this is the first answer to the request; the reply has its number and is written exactly if the client is still known, else the request is lost |
| `SimpleCommObjects.ServerObject.ForgetClient` | padsi/simple_comm.py:301-325 | at any point of any run the end of the client process is a step of the protocol: the server has no client from then on, and its jobs go on |
| `SimpleCommObjects.Perform` | padsi/simple_comm.py:145-334 | any list of calls on two new objects, in any order, leaves the objects and both pipes as the run of those steps does |
| `MountPoint.PlaceMount` | nsbubble/mountpoint.py:375-396 | the loop over the groups places a mount as the incremental step says |
| `MountPoint.AddMountKeepsMounts` | nsbubble/mountpoint.py:375-396 | placing a mount conserves the mounts if and only if it does not overwrite the group of its own path, and otherwise there are no more than before |
| `MountPoint.FirstPhase` | nsbubble/mountpoint.py:361-396 | the groups are the fold of the incremental step; they sit at paths of mounts, hold mounts below them with the leader first, and lose none when paths are distinct |
| `MountLoss.NothingLostIff` | nsbubble/mountpoint.py:361-396 | a whole walk keeps every bound directory and mount if and only if the bound paths are distinct and no mount is placed on the path of a group |
| `MountLoss.SecondReplacesFirst` | nsbubble/mountpoint.py:375-396 | of two mounts at one path only the second is left |
| `MountLoss.BothKeptBelow` | nsbubble/mountpoint.py:375-396 | below a group that was there before, both are kept |
| `MountMerge.TopPaths` | nsbubble/mountpoint.py:398-412 | exactly the group paths without another above them |
| `MountMerge.DirnameIsParent` | nsbubble/mountpoint.py:421-430 | the parent is shorter and below every other directory above the path, so the walk ends and skips none |
| `MountMerge.ParentGroup` | nsbubble/mountpoint.py:421-430 | the walk finds a group above the path if there is a directory one |
| `MountSet.SecondPhase` | nsbubble/mountpoint.py:398-432 | merging succeeds if and only if every lower group has a directory group above, and then the groups are prefix-free and hold all mounts |
| `MountSet.DirectoriesMerge` | nsbubble/mountpoint.py:413-432 | merging never raises when mounts above others are directories |
| `MountOrder.RaisesWhen` | nsbubble/mountpoint.py:398-432 | for distinct paths, a walk raises if and only if a group is left below a top path that is the root or no directory |
| `MountOrder.AddKeys` | nsbubble/mountpoint.py:375-396 | one mount adds its path beside all groups, leaves the group paths alone below one, or replaces one below it |
| `MountRaises.SomeOrderRaisesIff` | nsbubble/mountpoint.py:361-438 | some order of the mounts raises if and only if a top path that is the root or no directory has a bound directory below it though it is one, or two paths below it that need not meet in one group |
| `MountRaises.EveryOrderRaisesIff` | nsbubble/mountpoint.py:361-438 | every order raises if and only if such a top path has a bound directory below it though it is one, or two bound directories |
| `MountRaises.OrderDecides` | nsbubble/mountpoint.py:375-396 | a path that is no directory and two paths beside each other below it: grouped if it comes first, raising if it comes last |
| `MountRaises.RootOrders` | nsbubble/mountpoint.py:421-430 | `/`, `/a/`, `/b/` are grouped in that order and raise with `/` last |
| `MountRaises.FileOrders` | nsbubble/mountpoint.py:381-390 | `/a`, `/ab/`, `/ac/` are grouped in that order and raise with `/a` last |
| `MountSet.FromSpecifications` | nsbubble/mountpoint.py:361-438 | raises exactly when the groups of the first phase cannot be merged; otherwise both phases give prefix-free groups that conserve the mounts; without mounts the bound directories as they are |
| `MountLookup.GroupedUnderShallowest` | nsbubble/mountpoint.py:361-438 | a group holds exactly the mounts whose shallowest mount above sits at its path |
| `MountLookup.ShallowestHasGroup` | nsbubble/mountpoint.py:361-438 | every mount is in the group of its shallowest ancestor |
| `MountLookup.OrderDoesNotMatter` | nsbubble/mountpoint.py:375-396 | two orders of the same mounts that do not raise give the same partition with the same leaders |
| `MountLookup.BestMount` | nsbubble/mountpoint.py:305-323 | in a matching group the search finds a mount, the longest above the file |
| `MountLookup.FileSourcePath` | nsbubble/mountpoint.py:348-359 | for any groups, overlapping or not: the answer of the longest mount of the first group above the file that has one |
| `MountLookup.LongestAnswers` | nsbubble/mountpoint.py:305-359 | in groups that do not overlap this is the answer of the longest mount over all groups |
| `MountLookup.NoMountNoAnswer` | nsbubble/mountpoint.py:348-359 | without a mount above the file there is no answer |
| `MountLookup.GroupedIsPlain` | nsbubble/mountpoint.py:361-438 | groups built from distinct mounts do not overlap and hold one mount per path |
| `BoundLookup.LongestServesIff` | nsbubble/mountpoint.py:348-372 | in any list of distinct bound directories the longest one above a file serves it, for every file, if and only if in every nested pair the inner one comes from its place in the outer one, or the outer one from its place in the run directory |
| `BoundLookup.OwnPlaceServes` | nsbubble/mountpoint.py:368-372 | so it does for directories bound from their own place |
| `BoundLookup.DirAnswer` | nsbubble/mountpoint.py:325-337 | below a directory mount: the place in the run directory for writing or if it exists, else the place in the source if that exists, else none |
| `BoundLookup.LinkedDirectory` | nsbubble/mountpoint.py:348-372 | it does not, in either order, for `/a/` and a link `/a/b/` to `/c/` |
| `MountLookup.WrittenUnderRunDir` | nsbubble/mountpoint.py:325-331 | the write location is the run directory followed by the file name if and only if the mount path is a directory path |
| `RestartLimiter.ProcessSpec.Start` | crates/init/src/process.rs:221-224 | the window after a start is that of all starts so far |
| `RestartLimiter.WindowIsLast` | crates/init/src/process.rs:221-224 | the window is the last five start times |
| `RestartLimiter.RateBound` | crates/init/src/process.rs:102-116 | with a clock that does not go back over a window, starts of which the last is the latest and that span E seconds number at most 4 * (E / 10) + 5 |
| `RestartLimiter.FiveInTenSeconds` | crates/init/src/process.rs:102-116 | at most five starts fall in less than ten seconds |
| `RestartLimiter.BoundIsReached` | crates/init/src/process.rs:102-116 | for every span there are starts that reach the bound |
| `RestartLimiter.ClockBackVoidsLimit` | crates/init/src/process.rs:106-108 | six starts within five seconds, allowed with a clock going back |
| `RestartLimiter.SpacedIffClockForward` | crates/init/src/process.rs:102-116 | allowed starts keep ten seconds over every five if and only if the clock does not go back over a window |
| `InitTable.RunInv` | crates/init/src/reap.rs:33-91 | every interleaving of requests, exits, reaping, restarts and failing starts keeps the table consistent with the children |
| `InitTable.OnePlacePerLine` | crates/init/src/reap.rs:33-91 | a process line has at most one of live child, unreaped exit and pending restart |
| `InitTable.PostExitNeverLost` | crates/init/src/api.rs:205-247 | a tracked process started by a request is shown running exactly while it lives, and afterwards with its own exit status, even if it died before insertion |
| `InitTable.StaleExactlyWhenDropped` | crates/init/src/reap.rs:54-91 | a record wrongly shows running exactly when the exit was reaped before the record was there, which only restarts suffer |
| `InitTable.RestartedExitLost` | crates/init/src/reap.rs:33-51 | a run in which a restarted process stays shown as running after its exit |
| `InitTable.HandedAtMostOnce` | crates/init/src/api.rs:361-388 | a terminal status was never handed out before, and is gone afterwards |
| `InitTable.OnlyAllowedCapabilities` | crates/init/src/api.rs:205-247 | every start, restarts included, used allowed capabilities only |
| `InitTable.StartsObeyRate` | crates/init/src/reap.rs:33-51 | the starts of a line obey the rate bound in every run |
| `InitTable.RestartReplacesOwnRecord` | crates/init/src/reap.rs:33-51 | a restart removes at most the dead record of its own line |
| `InitLines.AskedIsKept` | crates/init/src/reap.rs:33-51 | from a request on, whatever happens, all starts and records of its line have its restart flag, importance and capabilities; without the flag there is exactly one start |
| `InitLines.RestartTaskIff` | crates/init/src/process.rs:102-116 | at any point of any run a reaped process gets a restart task if and only if it has a record, is not required, is to be restarted, and does not hold five start times within less than ten seconds |
| `InitLines.StoppedIff` | crates/init/src/reap.rs:54-91 | over every run init has stopped if and only if a required process is recorded as ended |
| `InitConfig.Config.CheckCapabilities` | crates/init/src/api.rs:205-247 | a request passes exactly when all its capabilities are allowed, and is refused for one that is not |
| `InitConfig.Config.PostProcs` | crates/init/src/api.rs:235-243 | at any point of any run the record of the started process goes in, unless its status is not wanted, under a number no record had, and no other changes |
| `InitConfig.Config.ReapChildren` | crates/init/src/reap.rs:54-91 | the exits are recorded in order, up to and including the first of a required process, and the restarts asked for are those that are due, in order |
| `InitConfig.RestartsAreDue` | crates/init/src/reap.rs:33-51 | a restart is asked for exactly for those ended processes that have a record and whose restart is due |
| `InitConfig.Config.ReapChild` | crates/init/src/reap.rs:54-91 | one exit is recorded; exactly a required process stops init; a restart is asked for if and only if the record is there, not required, to be restarted, and without five start times within less than ten seconds |
| `InitConfig.Config.RestartDone` | crates/init/src/reap.rs:33-51 | at any point of any run the new record goes in, the old one of the same line and dead goes out if still there, and no other changes |
| `InitConfig.Config.ProcStatusGet` | crates/init/src/api.rs:361-388 | a terminal record is removed and its code given, or 128 more than its signal; a running one stays, a missing one is reported |
| `InitConfig.CodeIsOfExit` | crates/init/src/api.rs:361-388 | at any point of any run the code given for a record is that of the exit of its process, or 128 more than the signal that ended it |
| `DnsName.OneReading` | crates/fw-logger/src/main.rs:384-459 | at a position there is at most one reading as a name of section 4.1.4 of RFC 1035 |
| `DnsName.ParseDnsName` | crates/fw-logger/src/main.rs:384-459 | a name is returned if and only if there is a reading with a label and at most five pointers, and then its text and end |
| `DnsName.EndInside` | crates/fw-logger/src/main.rs:420-430 | a name ends inside the payload, after its start |
| `DnsName.NameIsBounded` | crates/fw-logger/src/main.rs:384-459 | a name is shorter than six times the payload, pointer loops included |
| `DnsName.WrittenNameIsRead` | crates/fw-logger/src/main.rs:384-459 | labels written as in section 3.1 of RFC 1035 anywhere in a message are read back, ending after the zero byte |
| `DnsName.CompressedNameIsRead` | crates/fw-logger/src/main.rs:398-418 | labels and a pointer to a written name are read as all the labels, ending after the pointer |
| `DnsName.TextTellsNamesApart` | crates/fw-logger/src/main.rs:442-455 | names over letters, digits, `-` and `_` with the same text are the same |
| `DnsName.ByteShown` | crates/fw-logger/src/main.rs:447-455 | a byte is shown as itself exactly if it is a letter, a digit, `-` or `_`, and else as `?` |
| `DnsName.SameWithoutPointers` | crates/fw-logger/src/main.rs:384-459 | without pointers, reading in the packet is reading in the DNS message alone |
| `DnsName.PointerReadAsMeantIff` | crates/fw-logger/src/main.rs:384-459 | a name with a pointer is read in the packet with the labels it has in the message, within five pointers, if and only if at the target of its first pointer the packet reads within four pointers as the labels the message has there |
| `PacketLog.PointersCountFromPacket` | crates/fw-logger/src/main.rs:398-418 | a family of DNS responses about the name `a` that are all logged as about `b`, read in the IP header |
| `PacketLog.ParseDns` | crates/fw-logger/src/main.rs:301-354 | what is logged of a DNS message, for every payload |
| `PacketLog.TcpFlags` | crates/fw-logger/src/main.rs:220-247 | the names of the flags set, in order |
| `PacketLog.FlagsAreThoseSet` | crates/fw-logger/src/main.rs:220-247 | a flag is named exactly when its bit is set |
| `PacketLog.ExtractDetails` | crates/fw-logger/src/main.rs:203-299 | ports, flags, ICMP type or DNS summary by protocol; an error exactly for a packet without transport header |
| `PacketLog.MsgReceived` | crates/fw-logger/src/main.rs:122-153 | a record for every payload, no index leaving it |
| `PacketLog.PacketIsLogged` | crates/fw-logger/src/main.rs:122-153 | every UDP packet carrying a DNS message whose question name has no pointer is logged with its addresses, ports, name, type or code, and identifier |
| `PacketLog.TcpIsLogged` | crates/fw-logger/src/main.rs:210-259 | every TCP packet is logged with its addresses, source and destination port, and the names FIN to URG of its control bits, as far as the packet has them |
| `PacketLog.UdpIsLogged` | crates/fw-logger/src/main.rs:260-280 | every UDP packet is logged with its addresses and ports, without a name if there is no room for a DNS header |
| `PacketLog.IcmpIsLogged` | crates/fw-logger/src/main.rs:281-297 | every ICMP packet is logged with its addresses, type and code |
| `PacketLog.RestIsLogged` | crates/fw-logger/src/main.rs:203-207 | another protocol is logged by number and addresses, a packet without four bytes after its header as invalid |
| `PacketLog.NotIpIsNotLogged` | crates/fw-logger/src/main.rs:129-132 | a packet that is not IPv4 or has no whole header gives an empty record |
| `PacketLog.NamedDnsIsLogged` | crates/fw-logger/src/main.rs:301-354 | a message whose question name can be read, pointers or not: a response with name and code, a query with name and type if its question is whole |
| `PacketLog.UnnamedDnsIsLogged` | crates/fw-logger/src/main.rs:301-354 | without a question, or with a name that cannot be read, only a response is logged, with its code |
| `Allocator.Configuration.constructor` | padsi/config/main.py:253-259 | the admin networks are the last ones, as many as admin namespaces |
| `Allocator.Configuration.GetUnusedLowNetwork` | padsi/config/main.py:511-541 | the generator stops at the first network neither reserved nor in use, or at its end |
| `Allocator.Configuration.GetUnusedLowAdminNetwork` | padsi/config/main.py:542-558 | the reserved networks in order, then refusal |
| `Allocator.Configuration.Perform` | padsi/config/main.py:511-558 | any list of calls on a new object hands out exactly the networks of the run, in its order |
| `Allocator.NoOverlapDisjoint` | padsi/config/main.py:234-243 | networks the overlap test lets through share no address |
| `Allocator.GrantsAreDisjoint` | padsi/config/main.py:511-558 | over any run of both allocations no address lies in two networks handed out |
| `Allocator.GrantsAreInPlace` | padsi/config/main.py:234-259 | each network lies in the host network, outside the bridge network, and before the reserved tail exactly when asked for a zone |
| `Allocator.RefusedOnlyWhenFull` | padsi/config/main.py:511-541 | a zone is refused only when all networks not yet tried are reserved or in use |
| `Allocator.AdminGrantedInOrder` | padsi/config/main.py:542-558 | over any run the call after k admin calls is given the k-th network of the tail while there are that many admin namespaces and networks, and otherwise none |
| `Allocator.AcceptedIff` | padsi/config/main.py:234-243 | a host network is accepted if and only if its prefix is at most 24 bits and none of its addresses starts with 192.168 |
| `Allocator.SubIsNetwork` | padsi/config/main.py:253-259 | the network of a number is the 30-bit network at its address |
| `Clipboard.Allowed` | padsi/config/main.py:296-311 | allowed unless the first rule that applies denies |
| `Clipboard.CopyFromTable` | padsi/config/main.py:295-313 | for each zone, itself and the zones whose content the first applying rule does not deny |
| `Clipboard.PasteToTable` | padsi/config/main.py:315-320 | the exact converse of the other table |
| `Clipboard.FirstRuleWins` | padsi/config/main.py:299-308 | rules after one that applies change nothing |
| `Clipboard.StarCloses` | padsi/config/clipboard.py:63-70 | a deny rule from `*`, listed first, closes the zones it names to every other zone, and one to `*` closes every other zone to those it names |
| `Clipboard.OnlyThatZoneCloses` | etc/padsi/padsi.conf:69-75 | with the one rule that nothing is pasted into a zone, that is all that is forbidden |
| `Clipboard.ZoneNeedsWaylandProxy` | padsi/config/main.py:448-472 | no proxy if and only if there is no rule, or all zones may be pasted into the zone and at most one is closed to it |
| `Clipboard.NoProxyOnlyIfOpen` | padsi/config/main.py:448-472 | without a proxy every zone may be pasted into the zone |
| `Clipboard.NoProxyOneClosed` | padsi/config/main.py:461-472 | without a proxy at most one zone is closed to what the zone copies |
| `Clipboard.ProxyAsIntendedIff` | padsi/config/main.py:461-472 | the answer is that of looking at the other zones' targets if and only if the test ends before the loop, or two zones are closed to the zone just when the other zones differ |
| `Clipboard.ProxyNotMeant` | padsi/config/main.py:461-472 | three zones, nothing may leave the first: it gets a proxy not meant |
| `Clipboard.ProxyMissing` | padsi/config/main.py:461-472 | three zones, the second closed to the third: the first gets none though one is meant |
| `InputManager.NetworkInputManager.Add` | padsi/system/network_input_manager.py:36-55 | a new rule is installed once on each declared interface, a known one not at all |
| `InputManager.NetworkInputManager.DeclareInterface` | padsi/system/network_input_manager.py:57-78 | each rule is installed once on a new interface |
| `InputManager.NetworkInputManager.UndeclareInterface` | padsi/system/network_input_manager.py:80-93 | the interface is forgotten, nothing is uninstalled |
| `InputManager.NetworkInputManager.AdaptTo` | padsi/system/network_input_manager.py:95-103 | the interfaces become the default ones, new ones with every rule |
| `InputManager.AllPairsInstalled` | padsi/system/network_input_manager.py:36-103 | after any run each current rule is installed on each declared interface |
| `InputManager.InstalledExactlyOnce` | padsi/system/network_input_manager.py:36-103 | in a run that undeclares nothing each such pair is installed once, and nothing else is |
| `InputManager.OrderDoesNotMatter` | padsi/system/network_input_manager.py:36-103 | the calls of runs that undeclare nothing, adapting included, can be made in any order and repeated: the same is installed |
| `InputManager.InstalledOnceIff` | padsi/system/network_input_manager.py:36-103 | over any run nothing is installed twice if and only if no call brings in an interface that already has a pair with a current rule |
| `InputManager.FieldsAre` | padsi/system/network_input_manager.py:36-103 | after any run an interface is current if and only if some call brought it in and none took it out since, and a rule is known if and only if it was added |
| `InputManager.RedeclaringInstallsTwice` | padsi/system/network_input_manager.py:80-93 | undeclaring and declaring an interface installs each of its rules once more |

## Left out

- The nft program, kernel namespaces and every other subprocess: only the meaning of add, insert and delete on an ordered chain is modelled, for the IPv4 family.
- Domain names in firewall zones: nft would resolve them, the model refuses them.
- `flush` and DENY rules for related connections in the logging theorem: a flush removes the catch-all without changing the default, and a drop rule is not found again. The decision theorem covers both.
- NFLOG delivery and syslog output.
- Inclusion.PartOfIsSound: `*` zones and domain zones have no set meaning in the test; the domain comparison is a parameter.
- Inclusion of a wildcard domain in a wildcard domain: the code compares sample text.
- Splitting an endpoint by zone: it drops the interface.
- FlowRoundTrip.FlowReadBack: interface names hold no separator or blank; ranges are kept as their two ends, not as the text they were written in; netmask texts and the domain test are parameters.
- FlowText.AnalysePortSpec: decimal digits other than 0 to 9 that `int` also takes are not modelled.
- DomainRegex.RegexMeansGlob: names of one line, patterns without regular expression syntax, which is what the domain test accepts.
- MountSet.FromSpecifications: callers are taken to give absolute paths without double slashes, which the mount point constructor does not check; with others the walk up the parents need not end. Reading and checking the specifications is not modelled.
- MountRaises.SomeOrderRaisesIff: for distinct mount paths; of two mounts at one path one may be lost, which MountLoss.NothingLostIff decides.
- MountLookup.FileSourcePath: the files that exist are a parameter.
- InitTable.PostExitNeverLost: a process number is not reused while the table or a task mentions it.
- Signals, shutdown order, environment variables, standard streams and HTTP routing of init.
- Interface names and base64 text in the packet log, and the words for query types and reply codes.
- PacketLog.TcpFlags: the names are a list, without the commas between them.
- Parsing of clipboard rules and the check that their zones exist.
- Allocator.Configuration.GetUnusedLowNetwork: the addresses that exist at the time of a call are a parameter.
- Removal of firewall rules when an interface is undeclared: it runs under a debug flag only.
- Virtual machines, desktop integration, SSH keys, traffic shaping and bubble start-up: input and output with easy claims only.
