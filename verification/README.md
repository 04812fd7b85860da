# Verified model of the PPanel node agent

The agent runs proxy nodes for a panel: it keeps the panel's user list in step with the proxy core, limits and counts
the users' traffic, compiles the panel's outbound rules, sniffs connections and swaps its instances when the
configuration changes. This project models these parts in Dafny and proves what they are for.

`dafny verify dfyconfig.toml` checks everything.

## How it is built

| Part | Modules |
|---|---|
| User synchronisation | `UserDiff`, `UserRegistry`, `Limiter`, `UserSync`; whole runs in `LimiterRuns`, `SyncRuns`; what makes a failed step good in `SyncRepair`; which node types take users in `Admission` |
| Traffic and online accounting | `TrafficDrain` (drains with no counting in between), `TrafficLedger` (every atomic load, store and add a step), `TrafficWindows` (what falls between a load and its store), `DrainRefinement` (its drains against those in one piece), `DrainSafety` (drains and the registry's single writes together), `Mieru` |
| Configuration compiler | `Router`, `Vless` |
| Sniffing | `SniffReader`, `Sniffer` |
| Links and reloads | `Links`, `LinkRaces` (a user's connections and removal step by step), `Lifecycle` (instances as values), `Reload` (the objects), `ReloadChannel`, `Task` |
| Shared | `Text` (Go string operations, user keys), `Panel` (records), `Optional` |

Objects whose methods update fields are classes; each method's postcondition ties the new state to a function of the old
one, and the theorems are about those functions and about whole runs of them. Arbitrary map iteration order is an
arbitrary choice in a loop. What the environment decides (answers of the panel, whether the user manager refuses an
operation, what the library accepts, which phase of a start fails, what time it is) is a parameter. An empty panel list
and an unchanged one are both the empty sequence, as in the panel client.

What every step of a run keeps is stated for any number of nodes on one core, with sync steps that may stop at any
removal or addition, interleaved with connection checks, online reports and traffic.

## Results that contradict the code's comments or expectations

Each is a lemma with a concrete input or an exact condition; the model follows the code.

- The diff key `uuid + speed limit` is ambiguous for uuids of different length (`UserDiff.KeysCollide`), and a kept user
  whose id changes stays stale in every registry (`SyncRuns.SyncAgreesExactly`).
- A sync step that fails partway leaves the user manager behind. A later successful step makes it good exactly when it
  keeps only users the failed one spared and lists or deletes every user whose id the failed one wrote
  (`SyncRepair.FailureMendedExactly`); trying the same list again always does, as far as a step without failures would
  (`SyncRepair.RetryMendsExactly`). But the panel client has remembered the list's entity tag by then
  (`api/panel/user.go:40`, `:89`), so the same list is answered as unchanged, and nothing is tried until it changes;
  `SyncRuns.FailureIsNotRepaired` is a change that does not help.
- The comment "minimum non-zero rate" is wrong when one limit is negative and the other zero (`Limiter.MinNonZeroExactly`).
- The panel client returns an empty alive list, so no device limit ever takes effect (`LimiterRuns.DeviceLimitNeverApplies`).
- The comment "only report user has traffic > 100kb" describes a filter that never removes anyone
  (`TrafficDrain.FilterKeepsEveryone`).
- A report that runs out of time goes on beside the next one; two overlapping drains report the same bytes twice, so
  drains never over-report exactly when only one can be under way (`TrafficLedger.NeverOverReportedExactly`). What is
  reported too much is at most what drains stored zero over between each other's loads and stores
  (`TrafficWindows.OverReportBounded`).
- Mieru reports forget differences under the threshold instead of keeping them for later; nothing is ever withheld
  exactly with threshold zero (`Mieru.ExactOnlyWithoutThreshold`).
- A reload makes Mieru controllers without snapshots, and two Mieru protocols in one configuration make two controllers;
  the counters are per user name and live on, so each controller reports everything once more
  (`Mieru.ReloadsRepeatExactly`).
- A keyword rule that starts with one of the compiler's prefixes is compiled as another kind of rule. The router decides
  as the panel means exactly when no such keyword is in force (`Router.DecidesAlikeExactly`).
- The domains of name servers are read differently from rules: the two agree exactly on texts with one colon at most,
  a value that is not empty, and no white space whose trimming would change it (`Router.ReadAlikeExactly`); with two colons or more they never do, whatever
  else is in the text (`Router.ColonsAreReadApart`).
- A dot in the ticket or key makes the VLESS decryption string ambiguous, and nothing checks for it
  (`Vless.RoundTripsExactly`, `Vless.DottedTicketCollides`).
- Bytes that a reader returns together with an error are lost to the outbound (`SniffReader.TransparentExactly`).
- A sniffer that asks for more data is dropped although the loop is written to wait for it
  (`Sniffer.NeedMoreDataIsDropped`).
- Links made through `DispatchLink` are not registered, so removing their user leaves them open (`Links.Dispatcher.Kick`).
  The same goes for links whose manager was replaced by that of another first connection
  (`LinkRaces.RemovalClosesExactly`, `LinkRaces.FirstConnectionsRace`).
- A reload with a configuration that passes the check but does not compile does not fail: building the core panics, and the
  serving instances go down with the process (`Lifecycle.SurvivesExactly`, `Lifecycle.InvalidOutboundCrashes`). The
  nodes are not closed on the way, and of the cores only the one from the start-up is
  (`Lifecycle.CrashTakesServingPair`).
- A reload that fails after its teardown loses the reload channel for all later cores (`Lifecycle.ChannelHeldExactly`); a
  core whose server fails to start is never closed (`Lifecycle.BrokenCoreStays`).

## Model

| member | source | states |
|---|---|---|
| Text.UserTagInjective | common/format/user.go:7-9 | the registry key determines node tag and uuid as soon as uuids hold no bar, even if tags do |
| Text.UserTagDeterminesExactly | common/format/user.go:7-9 | a key stands for no second pair with a bar-free uuid if and only if its own uuid holds no bar |
| Text.UserTagCollides | common/format/user.go:7-9 | with a bar in a uuid two different users share a key |
| Text.ItoaReadsBack | node/task.go:203 | a printed speed limit can be read back, for every integer |
| Text.SplitJoinExactly | core/inbound/vless.go:45-49 | splitting a joined list gives it back if and only if no part holds the separator |
| Text.JoinUndoesSplit | core/inbound/vless.go:46 | joining the split padding gives the padding |
| UserDiff.CompareUserList | node/task.go:200-221 | for any two lists and any visiting order: one deleted user for each key that disappeared, and the added users in order, a repeated new key counting again |
| UserDiff.IndexByKey | node/task.go:201-205 | the map has exactly the old list's keys, each with an index of a user of that key |
| UserDiff.Remaining | node/task.go:216-218 | the map loop returns one old user for each key left, in any order |
| UserDiff.PatchOnKeys | node/task.go:200-221 | on keys, (old minus deleted) plus added is new; deleted is disjoint from new, added from old |
| UserDiff.DiffIsPatchExactly | node/task.go:200-221 | on (uuid, speed) pairs the diff is a patch if and only if equal keys of the two lists stand for equal pairs |
| UserDiff.KeysCollide | node/task.go:203-208 | two users of different uuid length share a key and the diff misses the change |
| UserDiff.PanelListsFaithful | node/task.go:203-208 | uuids of one length make keys faithful |
| UserDiff.DiffOfPanelLists | node/task.go:200-221 | deleted and added are exactly the users without a counterpart at their speed; a user whose speed changed is in both |
| Limiter.MinNonZeroExactly | limiter/dynamic.go:3-22 | the result is the minimum non-zero rate if and only if it is not the case of one negative and one zero limit |
| Limiter.BytesPerSecondExact | limiter/limiter.go:172 | within the bound the 64-bit product and truncating division give 125000 times the limit |
| Limiter.BytesPerSecondExactly | limiter/limiter.go:172 | over all limits the rate is 125000 times the limit if and only if the product fits 64 bits |
| Limiter.BytesPerSecondWraps | limiter/limiter.go:172 | one past the bound the product wraps to a negative rate |
| Limiter.DeviceIp | limiter/limiter.go:115-116 | the device's address is what follows the IPv4-mapped prefix, or the whole text without it |
| Limiter.Limiter.constructor | limiter/limiter.go:44-71 | the new limiter holds the listed users' ids and limits and nothing else |
| Limiter.Limiter.UpdateUser | limiter/limiter.go:89-112 | deleted users leave every map including their cached bucket, then added users are stored; of repeated users the last counts |
| Limiter.Limiter.DeleteUsers | limiter/limiter.go:90-96 | limits, devices, buckets, ids and alive counts of exactly the deleted users go |
| Limiter.Limiter.CheckLimit | limiter/limiter.go:114-184 | state and verdict, with expiry, the device tracker and the bucket cache |
| Limiter.Limiter.TrackDevice | limiter/limiter.go:141-170 | storing the address first and taking it back leaves the maps as they were exactly when the device is turned away |
| Limiter.Limiter.GetOnlineDevice | limiter/limiter.go:186-203 | one line for each tracked device in some order; the online map is reset and addresses move to the old-online map |
| LimiterRuns.NewStateValid | limiter/limiter.go:44-71 | a new limiter satisfies the invariant below |
| LimiterRuns.CheckKeepsValid | limiter/limiter.go:114-184 | a check keeps: nothing expires, every bucket has the fresh rate, tracked devices are of known users under their id and inner maps are not empty |
| LimiterRuns.UpdateKeepsValid | limiter/limiter.go:89-112 | so does an update whose changed users are deleted before they are added |
| LimiterRuns.RunKeepsValid | limiter/limiter.go:89-203 | so does every run |
| LimiterRuns.CheckGivesFreshRate | limiter/limiter.go:172-183 | in every valid state the rate answered is that of a fresh computation, from the cached bucket if there is one |
| LimiterRuns.FreshRateInRange | limiter/limiter.go:172 | for limits in range that rate is 125000 times the smaller limit that is set |
| LimiterRuns.RejectedExactly | limiter/limiter.go:118-170 | a check is refused if and only if the user is unknown or the device is new, over the limit and not the first of the period at a known address; a refusal changes nothing |
| LimiterRuns.CheckTracksExactly | limiter/limiter.go:115-170 | an accepted check that tracks devices adds exactly the address it comes from, mapped or not, under its user, and no check adds anything else |
| LimiterRuns.LimitsStored | limiter/limiter.go:52-66 | in a new limiter and after an update each listed user has its own id, speed limit and device limit, and nothing that expires |
| LimiterRuns.RateIsOwnLimit | limiter/limiter.go:172-183 | in every run from a new limiter an accepted user gets no bucket without a limit, and 125000 bytes a second for each megabit of its own limit |
| LimiterRuns.CheckUsesAddressExactly | limiter/limiter.go:158-161 | the only change of the old addresses by a check: the first device of a user's period uses up its entry if that is under the user's id |
| LimiterRuns.ReportKeepsAddresses | limiter/limiter.go:186-203 | a report empties the online map and moves every tracked address to the old ones under the id of one of its users |
| LimiterRuns.ExpiryExactly | limiter/limiter.go:127-137 | a limit whose time has passed falls back to the user's own, and a user without one is dropped; before that nothing stored changes |
| LimiterRuns.MappedAddressIsSameDevice | limiter/limiter.go:115-116 | the IPv4-mapped form (section 2.5.5.2 of RFC 4291) of an address is the same device |
| LimiterRuns.TrackedIsAccepted | limiter/limiter.go:141-203 | in every run the tracked devices are those accepted since the last report, less those of deleted users |
| LimiterRuns.OnlineExactlyOnce | limiter/limiter.go:186-203 | a report names each of these devices once, under the user's current id, and nothing else |
| LimiterRuns.ReportLinesDistinct | limiter/limiter.go:186-203 | with distinct ids no line occurs twice |
| LimiterRuns.DeviceLimitNeverApplies | api/panel/user.go:93-114 | with the panel client's alive list a check is refused in any run only for an unknown user |
| UserRegistry.XrayCore.DelUsers | core/user.go:45-73 | the writes made, when the user manager refuses at any user |
| UserRegistry.XrayCore.AddUsers | core/user.go:109-154 | all ids are written before the first user enters the manager, which may refuse at any user |
| Admission.ValidatedTakesUsers | core/validate.go:28-53 | the users of every enabled protocol that passed the check, other than Mieru, can be added: with the inbound there and no refusal all of them can then authenticate |
| Admission.TakesUsersExactly | core/user.go:115-137 | the types that take users are eight, and they are exactly those the check accepts apart from Mieru; Mieru and unknown types are refused |
| UserRegistry.RemovalsKeepKnown | core/user.go:53-71 | writes that drop an id only right after its user left the manager keep: whoever can authenticate has a non-zero id |
| UserRegistry.DelStepsKeepKnown | core/user.go:53-71 | after any number of single writes of deleting users, whoever can authenticate has a non-zero id |
| UserRegistry.AddStepsKeepKnown | core/user.go:112-152 | the same for adding users |
| DrainSafety.DrainKeepsKnown | core/user.go:86-98 | with everyone who can authenticate known, a drain removes no entry of such a user, and reports each such entry over the threshold |
| DrainSafety.StepKeepsInv | core/user.go:45-154 | every single write of adding or deleting users, every refusal, inbounds that come and go, reloads, counting and drains keep: whoever can authenticate has a non-zero id, and the drains look ids up in that same map |
| DrainSafety.EveryoneKnown | core/user.go:45-154 | so in every state of every run from the empty core, between any two writes |
| DrainSafety.KnownNeverDropped | core/user.go:81-99 | in every such run a user who can authenticate whenever a drain ends a visit of the user's entry loses no byte to a missing id, in any storage the user ever had |
| UserRegistry.DelUsersEffect | core/user.go:53-71 | no manager entry, id, traffic entry or link manager of a deleted user is left, and no other is touched |
| UserRegistry.AddUsersEffect | core/user.go:112-152 | all ids are set and the accepted users are in the manager |
| UserRegistry.MissingInbound | core/user.go:45-49 | without the inbound deleting users writes nothing and adding them writes ids only, and both fail |
| UserSync.XrayController.UserListMonitor | node/task.go:78-137 | the step with all its early returns, for failed queries, an unchanged list and refused users: which copies change when it stops |
| UserSync.AliveTakenOver | node/task.go:86-98 | every answered step takes over the panel's alive list, whether or not it goes on or through |
| UserSync.CorePatchExactly | node/task.go:100-120 | after a complete update user manager and ids agree with the new list if and only if kept users kept their ids |
| UserSync.LimiterPatchExactly | node/task.go:121-128 | the same for the limiter's limits and ids |
| SyncRuns.SyncRegistryForm | node/task.go:101-120 | whatever is refused, a step removes a prefix of the deleted users and, only if that is all of them, writes all added ids and enters a prefix |
| SyncRuns.SyncAgreesExactly | node/task.go:78-137 | after a successful step the node's list is the panel's; user manager and ids, and limits and uuid map, agree with it if and only if kept users kept their ids; the cached buckets stay at fresh rates |
| SyncRuns.OtherNodeUntouched | core/user.go:45-73 | deleting and adding users of one node touches no user or id of another |
| SyncRuns.StartKeepsInv | node/controller.go:40-82 | a start whose users are all accepted establishes the agreement, one that stops earlier adds no node, and every other node keeps its own |
| SyncRuns.SyncKeepsInv | node/task.go:78-137 | every sync step, failing or not, keeps the invariant of the whole system |
| SyncRuns.StepKeepsInv | node/task.go:78-137 | so does every step of any kind |
| SyncRuns.RunKeepsInv | node/task.go:78-137 | so does every run from the empty core |
| SyncRuns.NodeHoldsLatest | node/task.go:97-129 | a node none of whose steps failed holds the panel's latest non-empty list |
| SyncRuns.EveryReachableState | node/task.go:78-137 | in every reachable state: the limiter agrees with the node's list and its buckets are fresh even after failures; without failures list, user manager, ids and limits are the latest panel list; whoever can authenticate has an id |
| SyncRuns.SmoothRunsServe | node/task.go:78-137 | with node types that passed the check and a user manager that refuses nobody, every node ever started serves exactly the panel's latest list, in its copy, the user manager, the ids and the limiter |
| SyncRuns.FailureIsNotRepaired | node/task.go:101-129 | an input where a later successful step does not restore agreement after a failed removal |
| SyncRepair.SuccessAgreesExactly | node/task.go:100-129 | from any state failures have left, a successful step ends in agreement if and only if the users it leaves alone are ready already and whoever else is there is listed or deleted by it |
| SyncRepair.FailureMendedExactly | node/task.go:101-129 | after a failed step from agreement, a later successful one ends in agreement if and only if it keeps only users the failed one spared and lists or deletes every user whose id that one wrote |
| SyncRepair.RetryMendsExactly | node/task.go:101-129 | with the same list again it does if and only if kept users kept their ids |
| SyncRepair.RunMendsExactly | node/task.go:78-137 | in every run, however many steps have failed, a successful step ends in agreement if and only if the state it starts from is mendable by it |
| TrafficDrain.TrafficCounter.GetCounter | common/counter/traffic.go:21-30 | one storage for each key, made at first use with zero counters |
| TrafficDrain.TrafficCounter.Delete | common/counter/traffic.go:62-64 | the key goes, the storage stays with its holders |
| TrafficDrain.TrafficCounter.Rx | common/counter/traffic.go:66-69 | the download counter of the key grows, no other changes |
| TrafficDrain.TrafficCounter.Tx | common/counter/traffic.go:71-74 | the upload counter of the key grows, no other changes |
| TrafficDrain.VisitEntry | core/user.go:81-99 | one visit of a drain: report and reset, remove, or leave |
| TrafficDrain.GetUserTrafficSlice | core/user.go:75-107 | for every visiting order each entry over the threshold appears once with its full counts under its id, or is removed if it has none; all others are unchanged |
| TrafficDrain.DrainExactly | core/user.go:84-98 | entry by entry: over the threshold and with an id other than zero, one line with both counts and the entry at zero; over it without one, no line and no entry; otherwise no change |
| TrafficDrain.PendingAtMostThreshold | core/user.go:86-98 | what a drain leaves of any user is at most the threshold, and what it does not report it leaves alone |
| TrafficDrain.DrainBalances | core/user.go:84-98 | what a drain's slice has for a user is what leaves the user's entry |
| TrafficDrain.SubThresholdTrafficKept | core/user.go:75-107 | over any run of counts for any users and drains, each giving a slice in any order: a user's lines in all slices plus the pending entry are what was counted, in both directions |
| TrafficDrain.FilterOnline | node/task.go:157-170 | the online users without a traffic line that shows no traffic |
| TrafficDrain.KeptExactly | node/task.go:157-170 | each online user is judged by itself, in order, and left out exactly if a line of the slice shows no traffic for it |
| TrafficDrain.FilterKeepsEveryone | node/task.go:157-170 | after a drain that filter removes nobody |
| TrafficLedger.RunReferences | common/counter/traffic.go:21-30 | in every interleaving the storages that keys and drains refer to exist |
| TrafficLedger.DroppedKeyDetaches | common/counter/traffic.go:62-64 | dropping a key leaves its bytes in a storage without a key, and a later connection gets a new one at zero |
| TrafficLedger.ReloadAbandons | cmd/server.go:172-193 | a reload abandons all storages and ids of the old core, and makes and loses no line |
| DrainRefinement.VisitExactly | core/user.go:81-99 | the single loads and stores of a visit with nothing in between come to one report, removal or no change |
| DrainRefinement.DrainRefines | core/user.go:75-107 | a drain of single loads and stores with nothing in between refines the drain in one piece: same counters after it, and a slice that one can give |
| TrafficLedger.Conservation | core/user.go:75-107 | in every interleaving of atomic steps, with any number of drains and reloads: bytes added are those in slices, in live and in detached counters, in counters of closed cores, dropped, taken by unfinished drains, and lost, which the next rows explain |
| TrafficWindows.LostExactly | core/user.go:84-88 | in every interleaving, with any number of drains, what a storage has lost is what was added to it between the drains' loads and their stores, less what other drains stored zero over in between, both summed from the events |
| TrafficWindows.RunPositive | core/user.go:84-98 | no counter and nothing a drain has loaded is ever negative, and a storage's taken bytes are what the drains visiting it have stored zero over and not yet reported or dropped |
| TrafficWindows.OverReportBounded | core/user.go:75-107 | so counted plus stored over in each other's windows is reported plus held, dropped, taken and added in windows; reported exceeds counted by no more than drains stored zero over in each other's windows |
| TrafficWindows.OneDrainLoses | core/user.go:84-88 | with one drain at a time lost is exactly what was added between a load and its store, over all storages |
| TrafficLedger.ReportedAtMostCounted | core/user.go:75-107 | with one drain at a time reported never exceeds counted, and equals it if and only if all the other terms are zero |
| TrafficLedger.OverlappingDrainsReportTwice | common/task/task.go:59-87 | with room for two drains or more, two overlapping ones report the same bytes twice |
| TrafficLedger.NeverOverReportedExactly | common/task/task.go:59-87 | with room for k drains no run ever reports more than it counted if and only if k is at most one |
| TrafficLedger.DroppedOnlyWithoutId | core/user.go:89-92 | in every interleaving none of a key's bytes are dropped unless a drain ends a visit of its entry while it has no id |
| Mieru.MieruController.ReportUserTraffic | node/mieru.go:236-274 | snapshots become the readings, and differences over the threshold are the lines |
| Mieru.MieruController.UserListMonitor | node/mieru.go:211-233 | the list and the multiplexer's users change together, and only if the diff is not empty |
| Mieru.MonitorInstallsList | node/mieru.go:211-233 | the node then serves exactly the listed users at their speeds |
| Mieru.MuxUsersFaithful | node/mieru.go:300-313 | the multiplexer has one entry for each user, under its printed id, with its uuid as name and password, or a password made of the id without one |
| Mieru.ThresholdExactly | node/mieru.go:237-241 | a configured threshold counts as it is unless it is negative |
| Mieru.CountersGrowEnough | node/mieru.go:244-262 | monotone counters and a fixed pairing of id and uuid are all the reports need |
| Mieru.DeltasTelescope | node/mieru.go:236-274 | after n reports sent plus withheld is the cumulative total in each direction, and 0 <= withheld <= n * threshold |
| Mieru.ZeroThresholdExact | node/mieru.go:236-274 | with threshold zero sent upload and download are the counters |
| Mieru.TrickleNeverSent | node/mieru.go:264-273 | the bound is reached: growth by the threshold in each round is never sent |
| Mieru.ExactOnlyWithoutThreshold | node/mieru.go:264-273 | what is sent is what the counters show, in every run, if and only if the threshold is zero |
| Mieru.ReloadsStartAgain | node/mieru.go:55-65 | over any controllers on one set of counters, one after another or side by side, sent plus withheld is the sum of what each last read |
| Mieru.ReloadsRepeatExactly | node/mieru.go:55-65 | with threshold zero all controllers together send what the last one read if and only if no other had read anything |
| Router.PrintedRuleFaithfulExactly | core/outbound/build.go:221-241 | a compiled rule keeps kind and value if and only if it is not a keyword that starts with one of the compiler's prefixes |
| Router.KindIsRead | core/outbound/build.go:216-238 | a rule with an explicit kind is read as that kind |
| Router.RuleReadExactly | core/outbound/build.go:216-241 | however it is padded: kind and value around the first colon, nothing without a value, a whole name without a colon |
| Router.KeywordReadAsSuffix | core/outbound/build.go:230-233 | such a keyword is compiled like a suffix rule |
| Router.BuildRouteDomains | core/outbound/build.go:212-250 | the compiled rules in order, each at its first occurrence |
| Router.RouteDomainsComplete | core/outbound/build.go:212-250 | the list holds exactly what the rules mean, each once, despite filtering and deduplication |
| Router.RouteDomainsInOrder | core/outbound/build.go:212-250 | more rules never move or drop what is compiled already |
| Router.HasOutboundWithTag | core/outbound/build.go:203-210 | true if and only if some handler has the tag |
| Router.BuildDns | core/outbound/build.go:29-108 | the local resolver and the configured name servers, with their strategies and domains |
| Router.DnsServersExactly | core/outbound/build.go:29-98 | one server for each configured one, in order and after the local resolver, with its address, the strategy for the panel's word and the host, and each of its domains read by itself |
| Router.ReadAlikeExactly | core/outbound/build.go:70-85 | for every text the domain made for a name server is the rule made for the router if and only if it has at most one colon, its value is not empty, and trimming changes neither the value nor what its kind is printed as |
| Router.BlankBeforeValue | core/outbound/build.go:70-85 | a suffix with a blank after its colon is read in two ways |
| Router.ColonsAreReadApart | core/outbound/build.go:70-85 | a text with two or more colons is a whole name for the name servers and never what the router makes of it |
| Router.Build | core/outbound/build.go:28-201 | name servers, rules and handlers, or failure, with the loop's early exits and skips |
| Router.UsableExactly | core/outbound/build.go:285-458 | an item fails the build, is skipped and becomes an outbound exactly if what it says is broken, offers nothing, or is usable: in the panel's own words for protocol, network and security |
| Router.DetourExactly | core/outbound/build.go:252-458 | the protocol, network and security of the outbound an item stands for |
| Router.UsableIsServed | core/outbound/build.go:118-186 | in whatever is built each usable item has a handler under its name, and gets what its rules match unless the rule for UDP/53, the block list or an earlier usable item does |
| Router.BuildsExactly | core/outbound/build.go:28-201 | what is built has no broken item and is taken by the library; a failure has a broken item or something the library refuses |
| Router.ItemRulesMeaning | core/outbound/build.go:147-180 | first match over the items' rules is the name of the first usable item whose compiled rules match |
| Router.RouterFollowsDecider | core/outbound/build.go:118-186 | despite filtering, deduplication, skipped items and repeated names the router goes to the tag of the first compiled list that matches, after the rule for UDP/53 |
| Router.DecidesAlikeExactly | core/outbound/build.go:212-250 | for every query and every way of matching kinds and values the router and the panel's own rules, read by kind and value, are decided by the same list, if and only if no keyword in force starts with one of the compiler's prefixes |
| Router.RouterPreservesMeaning | core/outbound/build.go:118-186 | without such keywords the compiled router goes where a direct reading of the panel configuration says |
| Router.RoutesAlikeExactly | core/outbound/build.go:118-186 | with no item named like the default handler that holds if and only if there is no such keyword in force |
| Router.HandlersWellFormed | core/outbound/build.go:110-186 | tags are distinct, the built-in handlers come first and every usable item's name has a handler |
| Router.BuiltWellFormed | core/outbound/build.go:110-186 | for every configuration that builds, also every rule names a handler of the list |
| Router.HandlerOfName | core/outbound/build.go:181-184 | of repeated names the first usable item makes the handler, and none named like a built-in handler does |
| Vless.ValidateServerConfig | core/validate.go:10-26 | accepted if and only if data and protocols are there and every protocol is valid; otherwise the first refused one and its error |
| Vless.AcceptedExactly | core/validate.go:28-130 | a protocol is accepted if and only if it is disabled or what its type asks for |
| Vless.ErrorIsTrue | core/validate.go:28-130 | the error of a refused protocol names something that is wrong with it |
| Vless.ValidatedIsPrinted | core/validate.go:108-130 | an accepted, enabled VLESS protocol can be printed, with a known mode and with ticket and key that are not blank |
| Vless.TicketNormalisedExactly | core/inbound/vless.go:55-65 | normalising gives a normal ticket, leaves exactly the normal ones alone and is idempotent |
| Vless.TicketUnit | core/inbound/vless.go:55-65 | however it is padded, a ticket that ends in a digit gets the letter for seconds |
| Vless.PrintedExactly | core/inbound/vless.go:34-53 | the string spelled out, with no empty part for missing padding |
| Vless.RoundTripsExactly | core/inbound/vless.go:34-53 | splitting the string gives back method, mode, normalised ticket, padding and key if and only if mode, ticket and key hold no dot |
| Vless.PrinterInjective | core/inbound/vless.go:34-53 | with dot-free fields two protocols are printed alike if and only if they agree up to ticket normalisation |
| Vless.DottedTicketCollides | core/inbound/vless.go:40-49 | with a dot in the ticket its rest passes for padding |
| Vless.NoneMeansNone | core/inbound/vless.go:35-52 | the word for no encryption is printed for no other setting, and printing fails exactly for unknown methods |
| SniffReader.Source.ReadMultiBuffer | core/app/dispatcher/default.go:36-40 | the underlying stream as a script of answers |
| SniffReader.CounterReader.ReadMultiBuffer | core/app/dispatcher/countreader.go:17-37 | counts what it passes on, and passes on nothing with an error |
| SniffReader.CachedReader.Cache | core/app/dispatcher/default.go:42-57 | appends to the cache and shows its front up to the buffer's capacity; an error leaves the cache alone |
| SniffReader.CachedReader.ReadMultiBuffer | core/app/dispatcher/default.go:59-88 | the whole cache first, then the stream |
| SniffReader.CachedReader.Interrupt | core/app/dispatcher/default.go:90-99 | drops the cache and interrupts a pipe directly below, but not a counting reader |
| SniffReader.InterruptedExactly | core/app/dispatcher/default.go:90-99 | after an interrupt nothing cached is delivered; a pipe fails every later read, a counted stream goes on |
| SniffReader.TransparentExactly | core/app/dispatcher/default.go:42-88 | over every interleaving of peeks and reads, delivered bytes followed by the cache are the bytes taken, in order; this holds for all runs if and only if no failing read carries bytes |
| SniffReader.CountedOnce | core/app/dispatcher/default.go:405-409 | in every run, interrupts included, the up-counter is delivered plus cached plus released |
| SniffReader.RunAccounted | core/app/dispatcher/default.go:42-99 | every byte taken is delivered, cached, released or lost with an error |
| SniffReader.PayloadIsDeliveredNext | core/app/dispatcher/default.go:51-79 | what the sniffers saw is the front of what the next read delivers, however many peeks follow |
| Sniffer.ProtocolSniffer.Sniff | core/app/dispatcher/sniffer.go:58-82 | the finding and the candidates left of a content pass |
| Sniffer.ProtocolSniffer.SniffMetadata | core/app/dispatcher/sniffer.go:84-109 | the same for the metadata pass, which keeps the content sniffers |
| Sniffer.FirstAcceptingDecides | core/app/dispatcher/sniffer.go:60-74 | a pass has a result if and only if a candidate it asks accepts, and it is the first such candidate's |
| Sniffer.PassNarrows | core/app/dispatcher/sniffer.go:76-79 | every pass leaves a subsequence of the candidates |
| Sniffer.LeftExactly | core/app/dispatcher/sniffer.go:58-109 | a decided pass leaves everyone, an undecided one whoever has no clue, and the content sniffers after metadata |
| Sniffer.MetadataExactly | core/app/dispatcher/sniffer.go:84-109 | the metadata pass gives the first accepting metadata sniffer's result and keeps every content sniffer |
| Sniffer.NeedMoreDataIsDropped | core/app/dispatcher/default.go:483-490 | a candidate that asks for more data is not kept |
| Sniffer.SniffContent | core/app/dispatcher/default.go:465-499 | the loop, round by round |
| Sniffer.FirstPeekDecides | core/app/dispatcher/default.go:465-490 | from clock, script and verdicts alone: what the end of the context, a failed first read or a decisive first payload come to |
| Sniffer.SecondPeekDecides | core/app/dispatcher/default.go:475-498 | if the first payload is empty or nobody is sure and time is left, the second peek is made, and the first candidate still unsure that recognises both reads together gives the result |
| Sniffer.TimesOutExactly | core/app/dispatcher/default.go:494-496 | the loop times out if and only if nothing ended or decided it and either the time was used up after the first peek or two peeks were made |
| Sniffer.SniffStream | core/app/dispatcher/default.go:453-507 | metadata and content together |
| Sniffer.ResultCombines | core/app/dispatcher/default.go:500-506 | recognised metadata gives the domain whether or not the content is recognised, recognised content gives the protocol |
| Sniffer.NilErrorHasResult | core/app/dispatcher/default.go:453-507 | no error if and only if there is a result |
| Sniffer.SniffingOnlyPeeks | core/app/dispatcher/default.go:465-499 | sniffing does nothing to the stream but peek, at most twice, and only drops candidates |
| Sniffer.LoopResultIsVerdict | core/app/dispatcher/default.go:481-490 | a content result is a candidate's own on the front of the bytes delivered next |
| Links.LinkManager.CloseAll | core/app/dispatcher/linkmanager.go:41-46 | although entries are deleted while they are visited, every writer is closed once, every reader interrupted once, and no entry is left |
| Links.ManagedWriter.Close | core/app/dispatcher/linkmanager.go:19-22 | closes the writer once and removes exactly its own entry |
| Links.Dispatcher.GetLink | core/app/dispatcher/default.go:196-210 | the new link is open and registered with the user's manager beside the user's other links; other users' managers stay as they are |
| Links.Dispatcher.DispatchLink | core/app/dispatcher/default.go:378-391 | the new link is open and not registered |
| Links.Dispatcher.Kick | core/user.go:66-70 | every open registered link of the user is closed once and no other; no link of the user stays open if and only if none of the open ones came through DispatchLink |
| Links.Dispatcher.EntriesAreOpenLinks | core/app/dispatcher/linkmanager.go:29-39 | a user's entries are exactly the user's open registered links |
| LinkRaces.StoredExactly | core/app/dispatcher/default.go:196-204 | in every interleaving of single steps a user's stored manager stays until a connection stores another or a removal forgets it, exactly, and never comes back |
| LinkRaces.LinkKeepsManager | core/app/dispatcher/default.go:196-209 | a connection's link is attached to the manager that was stored when the connection got it |
| LinkRaces.DuringRemoval | core/app/dispatcher/linkmanager.go:41-46 | while a removal goes through the entries, with links attached and closed beside it, what it has left is what is still entered of those it found, and it touches no other link |
| LinkRaces.RemovalClosesExactly | core/user.go:66-70 | a link open when a removal finds a manager, that does not close itself, is closed by the end of the removal if and only if it is tracked and no other manager was stored and none forgotten since its connection got its own |
| LinkRaces.RemovalLeaves | core/user.go:66-70 | a removal that has closed what it found forgets the manager, and another one can begin |
| LinkRaces.FirstConnectionsRace | core/app/dispatcher/default.go:196-204 | two first connections of which the removal closes one |
| Lifecycle.TearDownStopsAll | cmd/server.go:172-183 | closing nodes before their core leaves no limiter, job or server of them |
| Lifecycle.StartReaches | node/controller.go:40-82 | how far the start of a controller gets by where it gives up |
| Lifecycle.SetStartReaches | node/node.go:58-82 | of a new set each enabled controller is started up to and including the first that gives up, the Xray ones first, and no other |
| Lifecycle.CloseTakes | node/controller.go:85-117 | closing takes the jobs, the limiter exactly while the core has its manager, and tag and inbound exactly if the inbound can be removed |
| Lifecycle.SurvivesExactly | core/xray.go:113-151 | a reload is survived if and only if it does not get as far as the core, or the outbounds compile and the library accepts the result |
| Lifecycle.CrashTakesServingPair | cmd/server.go:88-161 | otherwise the pair is serving at the moment of the panic and neither replaced nor closed; while the panic unwinds the nodes stay, and the core is closed if and only if it is the one from the start-up |
| Lifecycle.InvalidOutboundCrashes | core/xray.go:113-116 | one outbound whose settings are not JSON is enough, in every state |
| Lifecycle.RunSurvivesExactly | core/xray.go:113-151 | a run of reloads is survived if and only if none of them meets such a configuration |
| Lifecycle.ReloadKeepsGood | cmd/server.go:137-210 | whichever phase fails short of a crash: core and nodes are both there and of one generation or both missing; every enabled controller of current nodes has its inbound, its limiter and its periodic jobs, and no disabled one has anything; every started core is current or closed, and nothing of an earlier or failed node set keeps running |
| Lifecycle.ReloadOutcome | cmd/server.go:137-210 | what a reload comes to, phase by phase, and that a reload that works has the new core serving and a controller running for each enabled one of the plan |
| Lifecycle.EarlyFailureKeepsPair | cmd/server.go:144-170 | a failure before the teardown that is survived leaves the old pair and all older instances untouched |
| Lifecycle.OldCoresStay | cmd/server.go:172-193 | a core that is not current is never touched again |
| Lifecycle.InitialGood | cmd/server.go:80-98 | a start-up that worked satisfies all this for the plan's controllers, and holds the channel |
| Lifecycle.ReloadAndChannel | cmd/server.go:138-161 | one reload keeps the channel if and only if it was held and the reload does not fail after its teardown |
| Lifecycle.ChannelHeldExactly | cmd/server.go:138-161 | after any run of reloads that is survived the current core signals the main loop if and only if no reload failed after its teardown |
| Lifecycle.BrokenCoreStays | cmd/server.go:162-164 | a core whose server did not start is not closed, now or later |
| Lifecycle.FateIsOfReloads | cmd/server.go:119-134 | signals and idle turns change nothing: the fate of the process in any run of events is that of the reloads it started |
| Lifecycle.HandleExactly | cmd/server.go:103-134 | one event: a file change or a core with the channel leaves a request, a turn that finds one takes it and reloads |
| Lifecycle.SignalIsNotLost | core/xray.go:178-183 | a signal on the channel stays pending through any other events until a turn of the loop, which then starts a reload |
| Lifecycle.CurrentCoreHeardExactly | core/xray.go:175-184 | after any run of events the process lives if and only if no started reload crashed it, and then the current core's signals reach the loop if and only if none failed after its teardown |
| Lifecycle.DeafAfterLateFailure | cmd/server.go:182-189 | one such failure and one success: the process serves but its core asks in vain |
| Lifecycle.ShutdownStopsAll | cmd/server.go:121-124 | after an operating-system signal nothing keeps running |
| Reload.Process.BuildInstance | core/xray.go:105-153 | building the instance panics exactly if the configuration does not compile or is not accepted |
| Reload.Core.Start | core/xray.go:66-75 | the core's state after a start of the built instance that works or fails |
| Reload.Core.Close | core/xray.go:78-103 | the core's state after closing, from any state |
| Reload.XrayLifecycle.Start | node/controller.go:40-82 | what is registered when the start gives up at any point, and which periodic jobs run when it does not |
| Reload.XrayLifecycle.Close | node/controller.go:85-117 | jobs and limiter go; tag and inbound stay if the inbound cannot be removed |
| Reload.Node.Start | node/node.go:58-82 | enabled controllers start in order up to and including the first failure |
| Reload.Node.Close | node/node.go:84-107 | every controller is closed, also after a partial start, and the lists are empty |
| Reload.Process.Boot | cmd/server.go:70-98 | start-up reaches the initial state of the runs, or ends at the phase that fails, or crashes |
| Reload.Process.CloseOld | cmd/server.go:172-183 | the teardown on the objects |
| Reload.Process.Swap | cmd/server.go:172-193 | teardown, start of the new nodes, and installation or closing of both |
| Reload.Process.Reload | cmd/server.go:137-210 | one reload on the objects, for every failing phase and the crash |
| Reload.Process.Ask | core/xray.go:169-186 | a core's non-blocking signal |
| Reload.Process.Turn | cmd/server.go:119-134 | one turn of the main loop |
| Reload.Process.Shutdown | cmd/server.go:121-124 | closing nodes and core at the end |
| ReloadChannel.Channel.TrySend | cmd/server.go:103-106 | after an attempt exactly one request is waiting |
| Task.PeriodicTask.ExecuteWithTimeout | common/task/task.go:59-87 | the outcome of one execution for the loop, and the signal after a time-out |
| Task.PeriodicTask.Start | common/task/task.go:22-57 | starting, with or without a first execution, which is the loop's and may be overtaken by a close; a no-op while running |
| Task.PeriodicTask.SafeStop | common/task/task.go:89-96 | the stop channel is closed only while open, however often it is called |
| Task.RunGood | common/task/task.go:22-96 | in every run the stop channel is open exactly while the periodic job counts as running |
| Task.FailedTaskStaysDead | common/task/task.go:24-27 | after a failed execution, the first or a later one, no call of Start brings the loop back until it is closed |
| Task.LoopEndsExactly | common/task/task.go:39-54 | in every run a loop goes on executing until an execution fails or it sees the stop, and nothing else ends it |
| Task.StartAndClose | common/task/task.go:22-35 | what Start and Close change, and that a closed loop can end as soon as it waits |
| Task.LoopProgress | common/task/task.go:39-54 | an execution that does not fail leaves the loop waiting; when each step is possible |
| Task.TimeOutsPileUp | common/task/task.go:68-80 | as many abandoned executions are under way as timed out and have not ended; each time-out signalled once if there is a channel, and never without one |

## Left out

- Limiter.Limiter.CheckLimit: one atomic step, as are UpdateUser and GetOnlineDevice; races between them inside one node are not modelled.
- SyncRuns.EveryReachableState: a sync step is one event, so checks and drains do not fall between its DelUsers, AddUsers and UpdateUser; says nothing of device limits, whose changes are not part of the diff key.
- DrainSafety.KnownNeverDropped: users have ids other than zero and uuids without a bar; a batch and an inbound of the same node do not start at once; the limiter takes no part.
- TrafficLedger.Conservation: counters are unbounded integers, not 64-bit ones, and the threshold is compared without overflow; a reload falls between drains; the code finds and stores a node's counter table in two steps, so two first connections can make one each and the table that loses is never drained.
- Mieru.DeltasTelescope: assumes that counters do not shrink and that an id keeps its uuid; the unlocked read of the user list during a report is one step.
- Mieru.ReloadsRepeatExactly: that counters outlive a controller and are found by the user's name alone is up to the mieru library, which is not part of this model.
- TrafficDrain.GetUserTrafficSlice: what the panel client does with a slice is not modelled; a slice whose upload fails is lost in the code.
- SniffReader.TransparentExactly: Cache is one step, although the code reads before it takes its lock; the delivered order is for a single reader.
- Sniffer.SniffStream: sniffers are functions of the payload; the fake-DNS sniffers are candidates like others.
- Links.LinkManager.CloseAll: runs alone here; module LinkRaces has links attached and closed beside it, but not that the Go run-time may abort on a map that is written while it is iterated without its lock.
- Links.Dispatcher.GetLink: finds and stores the user's manager in one step; module LinkRaces has them apart.
- LinkRaces.RemovalClosesExactly: one user at a time, as users share no manager; a link's closing and the loss of its entry are one step.
- Reload.XrayLifecycle.Start: its periodic jobs are a set of names; module Task has the life of a job, and the restart of jobs after a certificate renewal is left out.
- Reload.Process.Reload: the new log handle is left out, and so is what a job does that is still under way on a closed core.
- Task.PeriodicTask.Start: one loop for each object; a loop left over from before a restart is not followed, because no caller restarts a closed one.
- Text.ToLower: ASCII only; Text.TrimSpace knows the white space of Unicode.
- Router.Build: JSON validity and the library's own builders are parameters; the settings made for an item without settings of its own are not spelled out, nor what its network and security add to the stream settings.
- Router.DecidesAlikeExactly: prefixes that only the library gives meaning to, such as those of geographic lists, are plain keywords here.
- The panel's HTTP client, JSON decoding and entity tags; only the records and the meaning of an absent list are used.
- Internals of xray-core, mieru and the rate limiter library; a bucket is a serial number and a rate.
- Certificates, inbound builders other than the VLESS decryption string, and account constructors.
- Destination override after sniffing, and the choice of the outbound handler for a connection.
- Logging, system status, the file watcher's timers, command-line flags.
- Real time and scheduling fairness: the models are untimed, and no bound is claimed on how soon a closed periodic job stops.
