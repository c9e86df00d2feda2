# peer-wan: a verified model of the control plane

peer-wan is an SD-WAN control plane. A controller keeps a table of nodes, turns source-routed policy
rules into one-hop rules for every node, publishes versioned plans, and agents render the plans into
WireGuard peers and static routes. This project models those parts in Dafny and proves what they keep.
`dafny verify dfyconfig.toml` checks all of it.

- `PathCompiler`, `Prefixes`, `Ports`, `Render`, `Forwarding`, `Kernel`: the policy path compiler, what the agent
  writes for WireGuard, bgpd and the kernel, and the walk a packet takes over the kernel's routes.
- `Topology`: the health-scored peer plan.
- `Plans`, `Interleaving`: the versioned plan store, with atomic handlers and with interleaved ones.
- `Registration`: prepare, register, policy updates and the overlay address allocator.
- `HealthWindow`, `BoundedLogs`, `Store`: the in-memory store and its pruned and bounded logs.
- `ControlPlane`: the controller's handlers over the store; `EndToEnd`: from a registration to the packets.
- `Nat`, `AgentMerge`: the agent's NAT rules and its sticky merge of plans. `Text`, `Seqs`, `Model`: vocabulary.

Handlers are steps on decoded requests. The clock, key pairs, the login verdict, name lookups and GeoIP
answers are inputs; SHA-256 is an arbitrary function of its input text. Code that updates state is modelled by
methods and classes; each method is tied to a specification function or predicate, and what holds over all
runs is proved of that specification. The store carries ghost traces of its logs and the controller of its plan and
table steps, so the theorems over runs hold of each state these classes can be in.

Some promises hold under a condition only. There the condition is proved to be exact:

- Compiled rules retrace the operator's paths if and only if the paths for a destination agree at every shared
  node (on the next hop, or on ending there), each node on a path knows an address for its next hop or falls back to it
  by its default route or as the peer that announces the destination, and no node at which a path ends leads on: by a
  rule for the destination or for the default prefix, by a default route, or because a peer announces the destination.
- After an accepted registration, and after any reports and plan fetches that follow, the agents' routes retrace them
  if and only if the same holds of what the agents run, where a next hop is known when it was planned: listed, with a
  key, prefixes and an address, and not down in the reports by which the latest plan of the node before it was made.
  Agents that are sent no rules keep old ones, and these count as rules that lead on.
- At a hop of agreeing paths WireGuard sends the destination where the route leads if and only if no peer later in the
  file claims the same prefix.
- Agents run the published rules if and only if no agent that is sent an empty rule list has ever held a rule.
- With rollbacks, histories stay strictly increasing throughout a run if and only if at every save the counter has
  caught up with the node's last plan; with overlapping handlers, if and only if none stores a plan after a newer one.
- A registration is accepted if and only if it names a node, and its token is the one that node was issued, or it has
  none and the login check passes. An ID gets into the table by a prepare or by a request after a login, and only so.
- An accepted request rebuilds a known record if and only if it is forced or brings a new value for a compared field.
- A listed node is planned for another if and only if it has a prefix and a key and is not reported "down".
- If the hash has no collisions, two plans whose texts have the same lengths have one signature if and only if node,
  version text, and IDs and AllowedIPs of all peers are equal; a rollback to a plan altered so ends in a mismatch.
- Registering twice equals registering once in the node table if and only if the request is not forced. (An accepted
  repeat still saves a plan for every node and moves the plan counter on.)
- The policy set for a node holds until its next update if and only if no accepted registration has rebuilt the record
  and no prepare has readdressed it, or it was no policy.
- An allocating prepare keeps overlay addresses distinct if and only if an octet is free or nobody holds the fallback.
- A health history query answers like the log of all reports if and only if no cutoff has removed a report it asks for.
- bgpd and WireGuard agree on the default route if and only if the default-route flag is set; the kernel and WireGuard
  agree if and only if the default next hop is unset or names the egress peer; in both cases unless the peer admits
  the default prefix for another reason.
- What is pushed after a health report leaves the agent's record alone if and only if its default route is off, its
  port is 8082 and the rules pushed are none or its own.
- After an accepted request the record holds submitted peer endpoints if and only if the node was unknown, something
  else made the record be rebuilt, or they were the same already.
- A call of the NAT set-up succeeds if and only if its three rules are in place afterwards and none was overlooked and
  could not be added. A rule of another configuration is still in place after any calls if and only if there were more
  copies of it than calls that read a state naming it and could delete one.

Inputs that fail are given where a condition is not met: two nodes whose paths disagree, a default route or a withdrawn
rule at the end of a path, a rollback between saves, two racing handlers, a request with new peer endpoints only, a
registration that drops a policy, 254 prepares in a row, two peer lists with one signature, a save that outdates a report, a NAT rule that cannot be deleted.

## Model

| member | source | states |
|---|---|---|
| PathCompiler.ExpandPolicyRules | pkg/api/controller.go:739-771 | the output map, as grown by the nested loops, gives each node exactly the emissions addressed to it, in visiting order, and has no empty entry |
| PathCompiler.RuleCountConserved | pkg/api/controller.go:741-768 | the nodes together receive the sum of max(1, path length) over all input rules: nothing is lost or invented |
| PathCompiler.CompiledRuleOrigin | pkg/api/controller.go:756-767 | each rule a node receives keeps prefix and domains of a rule of some node and is one hop of its path, at the node that precedes that hop |
| PathCompiler.OrderIndependent | pkg/api/controller.go:739-771 | for every permutation of the node list a node receives the same rules, counted with repetition |
| PathCompiler.ExpansionFixedPoint | pkg/api/controller.go:742-766 | expanding expanded rules changes nothing at a node, in content or order, exactly when the node is listed or receives nothing |
| Forwarding.CompilationPreservesPaths | pkg/api/controller.go:737-771 | walking the kernel's routes from any source visits exactly that rule's hops and stops, for every rule covering the destination, if and only if paths agree at shared nodes, hops are known or fallen back to, and nothing at the end of a path leads on |
| Forwarding.AllRetraceIffFollows | pkg/agent/render.go:145-248 | whatever the nodes run, with policy, default and announced routes, walks visit exactly the hops of all source paths if and only if every node does next what each path does next there |
| Forwarding.KeptRulesPreservePathsIff | pkg/agent/plan.go:309-311 | the same where agents that were sent no rules keep old ones: these count as something that leads on at the end of a path |
| Forwarding.DisagreeingPathsAreNotRetraced | pkg/api/controller.go:751-767 | two listed nodes whose paths part at a shared hop: no deployment of the compiled rules retraces both |
| Forwarding.DefaultRouteLeadsOn | pkg/agent/render.go:184-199 | one agreeing path with its hop known, to a node with a default route: the packet does not stop there |
| Forwarding.StaleRuleLeadsOn | pkg/agent/plan.go:309-311 | one agreeing path, to a node that was sent no rules and holds an old one for the destination: the packet does not stop there |
| Forwarding.AgreeingPathsAreSimple | pkg/api/controller.go:737-771 | paths that agree at every shared node never revisit a node or return to their source |
| Forwarding.BgpHasOneRouteIff | pkg/frr/bgp.go:43-65 | when paths agree bgpd has one line for a prefix at most, so the order of lines cannot matter, exactly unless a rule sends the default prefix to another peer than the egress |
| Forwarding.HopIsCarried | pkg/agent/render.go:84-127 | at each known hop of agreeing paths the route leads to the next hop's overlay address, WireGuard admits the destination for that peer, and any other peer admits it only if it did before or as the egress of the default |
| Forwarding.WireGuardAgreesIff | pkg/wireguard/render.go:31-49 | the last peer of the file that claims the destination is the route's next hop exactly when no peer after it announces it or carries the default |
| Kernel.Tables.SyncPeerRoutes | pkg/agent/render.go:278-311 | the main table gets a route into the tunnel for exactly the IPv4 prefixes that peers announce, the default aside |
| Kernel.Tables.ApplyRules | pkg/agent/render.go:205-248 | main and table 100 get the policy routes in order, and exactly their prefixes get a rule that prefers main |
| Kernel.Tables.ApplyStaticRoutes | pkg/agent/render.go:145-250 | over the tables and rules it writes, lookup of any prefix leads exactly where the walk of a path goes |
| Prefixes.Expand | pkg/policy/geoip.go:56-103 | the loops with their seen set return the non-empty candidate prefixes at their first occurrences |
| Prefixes.TargetsFacts | pkg/policy/geoip.go:56-103 | a rule's destinations are exactly the non-empty candidates of a valid rule, each once |
| Prefixes.TargetIff | pkg/policy/geoip.go:56-103 | what a valid rule covers, case by case: an accepted CIDR as given, a bare address with /32, a parsed address with /32, the version 4 or 6 GeoIP list that is named, and the addresses of its domains with /32 |
| Render.RenderRoutes | pkg/frr/bgp.go:43-65 | the route lines are the egress default followed by the policy routes, rule by rule |
| Render.KernelDefaultIff | pkg/agent/render.go:184-191 | with the flag set the default route goes to the named next hop, or if none is named to the egress peer, when its address is known |
| Render.PolicyRouteIff | pkg/frr/bgp.go:49-65 | a route is written exactly when some rule has the prefix among its destinations and its next hop has an address |
| Render.AugmentEgressAllowedIPs | pkg/agent/render.go:84-127 | in place, every peer gets the missing prefixes of the rules it is next hop of, and only the egress peer the default |
| Render.RenderConfigs | pkg/agent/render.go:25-68 | WireGuard peers are rewritten, then augmented; routes come from the original peers |
| Render.AugmentationStable | pkg/agent/render.go:109-126 | augmentation only appends, adds no repetition, keeps the overlay address first and is idempotent |
| Render.RouteIsCarried | pkg/agent/render.go:84-127 | each policy route leads to a peer whose augmented AllowedIPs hold the prefix, except for a peer without ID that lacked it |
| Render.CarriedIsRouted | pkg/frr/bgp.go:49-65 | the prefixes the rules add to a peer are exactly those routed to it |
| Render.BgpDefaultIsCarried | pkg/frr/bgp.go:44-48 | bgpd's default route is admitted by WireGuard exactly when the default-route flag is set, or the prefix is there anyway |
| Render.KernelDefaultIsCarried | pkg/agent/render.go:184-199 | the kernel's default route is admitted exactly when the default next hop is unset or is the egress peer, or the prefix is there anyway |
| Ports.AllocateLocalPorts | pkg/agent/wstunnel.go:162-177 | the k-th distinct host gets port base + k, and nothing else gets a port |
| Ports.PortsFillRange | pkg/agent/wstunnel.go:162-177 | the assigned ports are exactly base up to base plus the number of hosts |
| Ports.PortIffHost | pkg/agent/wstunnel.go:162-177 | a port is assigned for exactly the hosts that peers have |
| Ports.EndpointsCoincide | pkg/agent/render.go:29-40 | rewritten endpoints are equal exactly when the hosts are |
| Ports.EndpointHostCases | pkg/agent/wstunnel.go:179-194 | the host of an endpoint is what precedes its port, nothing when there is only a port, else the endpoint |
| Ports.OneHostOnePort | pkg/agent/render.go:29-40 | endpoints of one host share one local endpoint in the range, whatever their ports, and the other fields of the peers stay |
| Topology.ScoreOf | pkg/topology/plan.go:26-43 | the score is the least reported latency below the default plus the penalty per session that is not up, in whatever order the maps are read |
| Topology.BuildPeerPlan | pkg/topology/plan.go:13-76 | the plan is the stable sort by score of exactly the eligible other nodes |
| Topology.PlannedIff | pkg/topology/plan.go:19-67 | a listed node is planned exactly when it is another one, has a prefix and a key, and has no report of status "down"; the peer has its key and its first endpoint |
| Topology.ScoreInFields | pkg/topology/plan.go:26-43 | the score is 100000 without a report, else the least latency below that plus 10000 for each session not "Established" |
| Topology.LowerScoreFirst | pkg/topology/plan.go:68-70 | of two planned peers the one whose node has the lower score comes first |
| Topology.StableSortUnique | pkg/topology/plan.go:68-70 | a stable sort is determined by its input, so the library's algorithm does not matter |
| Topology.PeerPlanUnique | pkg/topology/plan.go:13-76 | one node list and one set of reports give one plan |
| Topology.PlanMembers | pkg/topology/plan.go:19-67 | the planned peers are exactly the eligible nodes |
| Topology.CompleteMesh | pkg/topology/plan.go:19-25 | nodes eligible for each other are in each other's plans |
| Topology.OwnReportIgnored | pkg/topology/plan.go:20-22 | the target's own health report has no effect on its plan |
| Topology.HealthHandlerPlanIgnoresHealth | pkg/api/controller.go:378-383 | the plan saved with a health report is the plan for no reports at all |
| Topology.PlannedAllowedIPs | pkg/topology/plan.go:48-59 | AllowedIPs are non-empty, without repetition, overlay first, and nothing but the node's own prefixes |
| Plans.EveryRunConsistent | pkg/api/controller.go:586-615 | over every run, rollbacks included, the global version is at most the counter, each latest plan is in its history, and each stored plan has its own ID, version text and signature |
| Plans.HistoryIsLastSaved | pkg/store/memory.go:271-281 | a history is always the last 20 plans ever saved for the node |
| Plans.RollbackSucceedsIffSaved | pkg/api/controller.go:561-579 | in reachable states a rollback succeeds exactly when the version is among the last 20 saved, makes the oldest match current, and never hits the signature mismatch |
| Plans.SignatureIff | pkg/api/controller.go:660-669 | for a hash without collisions and texts of equal lengths, signatures are equal exactly when node, version text, and IDs and AllowedIPs of all peers are |
| Plans.SignedText | pkg/api/controller.go:660-669 | the text that is hashed for a peer with two prefixes |
| Plans.SignaturesCollide | pkg/api/controller.go:660-669 | parts are hashed without separators, so two different peer lists have one signature |
| Plans.AlteredPlanMismatchesIff | pkg/api/controller.go:561-579 | a rollback to a stored plan that was signed for other peers of equal lengths ends in the mismatch branch exactly when an ID or AllowedIP differs, with the plans switched and the counter as it was |
| Plans.RollbackFreeHistoriesIncrease | pkg/store/memory.go:271-281 | without rollbacks every history is strictly increasing and bounded by the counter |
| Plans.HistoriesIncreaseIffCaughtUp | pkg/api/controller.go:543-615 | over every run with rollbacks, histories are strictly increasing at all times if and only if at every save the node's last version is at most the counter |
| Plans.RollbackReusesVersions | pkg/store/memory.go:300-312 | in any run, the plan saved after a rollback takes the next version again; asking for that version brings back the older plan of that version if it is still in the history, and the new plan only if not |
| Plans.RollbackRepeatsVersion | pkg/api/controller.go:561-579 | the run save, save, rollback to 1, save stores version 2 twice and a rollback to 2 restores the older plan instead of the current one |
| Interleaving.UninterruptedIsAtomic | pkg/api/controller.go:586-615 | the three steps of an uninterrupted handler are the atomic save |
| Interleaving.UninterruptedRollbackIsAtomic | pkg/api/controller.go:561-579 | the three writes of an uninterrupted rollback are the atomic rollback |
| Interleaving.EveryInterleavingIntact | pkg/api/controller.go:543-615 | in every interleaving of saves, bumps and rollbacks each plan stored or in flight has its own ID, version text and signature, each latest plan is in its node's history, and counters stay within the steps taken |
| Interleaving.RollbackGoesOn | pkg/api/controller.go:561-579 | in every interleaving a rollback goes on exactly when the node's history has the version: the signature check never stops it |
| Interleaving.EveryInterleavingOk | pkg/api/controller.go:591-615 | in every rollback-free interleaving allocated versions are distinct, a version in flight is in no history, none is stored twice, and all stay within the counter |
| Interleaving.NeverInvertedIffStoredInOrder | pkg/store/memory.go:271-281 | in every interleaving, rollbacks included, histories are strictly increasing at all times if and only if no handler stores a plan after one of the same or a newer version of its node |
| Interleaving.RacingWritersInvert | pkg/api/controller.go:591-615 | after any run and beside any other handlers, two handlers for one node that allocate in one order and save in the other leave the older plan current and published, behind the newer in the history |
| Interleaving.SerialisedWritersKeepOrder | pkg/api/controller.go:591-615 | if handlers for one node exclude each other, every interleaving keeps all histories strictly increasing |
| Registration.RegisterIdempotentIffNotForced | pkg/api/controller.go:192-304 | for any table and accepted request, registering again changes neither nodes nor version counters exactly when the request is not forced |
| Registration.AcceptedIff | pkg/api/controller.go:178-199 | a request is accepted exactly when it has an ID, and its token, from the body or else the header, is the stored one, or it has none and the login check passes; which refusal is given; refusals change nothing |
| Registration.KnownIffAdmitted | pkg/api/controller.go:178-199 | over any run a node is in the table exactly when it was before, was prepared, or was registered after a login without a token |
| Registration.RebuildsIff | pkg/api/controller.go:690-711 | an accepted request rebuilds a known record exactly when it is forced or submits a new value for a compared field, or a router ID can be derived |
| Registration.RegisteredKeeps | pkg/api/controller.go:220-293 | what a request of a known node does not submit stays; private key, token and a set overlay address always stay; a router ID nobody gave is the overlay address without its mask |
| Registration.RegisteredNew | pkg/api/controller.go:207-218 | an unknown node is stored with what it submits and nothing else |
| Registration.BareRequestChangesNothingIff | pkg/api/controller.go:220-293 | a request that submits nothing but ID and token leaves every field of the record, and the table, as it is, exactly when no router ID has to be derived |
| Registration.RegisteredAbsorbs | pkg/api/controller.go:207-304 | the record in the table after an accepted request holds the submitted values; a fixed overlay address stays, and peer endpoints are stored exactly when the node was unknown, is rebuilt, or had them |
| Registration.EndpointsDropped | pkg/api/controller.go:690-711 | a request of a known node with a router ID that submits new peer endpoints only is accepted and changes nothing |
| Registration.PolicySurvivesIff | pkg/api/controller.go:207-218 | all five policy fields of a known node survive an accepted request exactly when none was set or the record stays as it is |
| Registration.PolicyHoldsIffNeverReset | pkg/store/memory.go:327-341 | what an update sets holds through any run up to the next update of the node if and only if no accepted registration rebuilt its record and no prepare readdressed it, or nothing was set |
| Registration.NewEndpointLosesPolicy | pkg/api/controller.go:207-218 | a rule set for a node is gone once the node registers with a new endpoint |
| Registration.IdentityIsSticky | pkg/api/controller.go:220-288 | over every run a token comes with an overlay address, neither changes afterwards, version strings match counters that never decrease |
| Registration.PreparedRecord | pkg/api/prepare.go:64-73 | an allocating prepare stores the pair of keys, port 8082, AS 65000, the address and it without the mask as router ID, a token from the clock, and nothing else |
| Registration.KeysAfterRun | pkg/api/controller.go:220-293 | over any run a provisioned node keeps its private key, and its public key is the last one that an accepted registration submitted, or the one it had |
| Registration.CounterCountsStores | pkg/store/memory.go:57-67 | over any run a version counter is the number of times a record of the node was stored |
| Registration.UpdateChangesPolicyOnly | pkg/store/memory.go:327-341 | a policy update sets the five policy fields of its node and changes nothing else |
| Registration.NoEmptyID | pkg/api/controller.go:173-190 | no run stores a record under the empty ID |
| Registration.AssignOverlay | pkg/api/prepare.go:96-113 | the address has the least third octet that no node uses, whatever the listing order, or is the fallback when none is free |
| Registration.AssignmentUnique | pkg/api/prepare.go:96-113 | the table determines the assigned address |
| Registration.FreeOctetExists | pkg/api/prepare.go:106-112 | with at most 252 nodes the allocator finds the least free octet and never falls back |
| Registration.PrepareKeepsUniqueIff | pkg/api/prepare.go:51-79 | an allocating prepare keeps the addresses of provisioned nodes distinct exactly when an octet is free or no provisioned node holds the fallback |
| Registration.FallbackGivenTwice | pkg/api/prepare.go:106-112 | of any 254 new nodes prepared in a row the first 253 get distinct addresses and the last gets the address of the 250th |
| Registration.OverlaysStayUnique | pkg/api/prepare.go:51-79 | over every run that allocates in tables of at most 252 nodes, provisioned nodes keep distinct overlay addresses |
| HealthWindow.Compact | pkg/store/memory.go:106-112 | the in-place compaction leaves exactly the surviving reports in order and overwrites no unread one |
| HealthWindow.QueryIsCompleteIffLossless | pkg/store/memory.go:100-153 | over every run of saves and prunes, a query returns exactly what the full log would if no cutoff removed a report it asks for, and fewer reports otherwise |
| HealthWindow.WindowRefinesFullLog | pkg/store/memory.go:127-153 | whatever the reports, a query later than every cutoff applied to the node returns exactly what the full log would |
| HealthWindow.SaveLosesOlderReports | pkg/store/memory.go:100-115 | a report up to a later save's cutoff is missing from every query that should show it |
| BoundedLogs.BoundedRefinesFullLog | pkg/store/memory.go:176-188 | a log cut at every append is always the end of the full log |
| BoundedLogs.TailOfBounded | pkg/store/memory.go:190-203 | listing a bounded log with a limit shows the end of the full log |
| Store.MemoryStore.ListNodes | pkg/store/memory.go:69-77 | every node once, in no particular order |
| Store.MemoryStore.SaveHealth | pkg/store/memory.go:100-115 | the latest report and the pruned history after a save |
| Store.MemoryStore.PruneHealthBefore | pkg/store/memory.go:140-153 | every node's history is compacted to the reports not before the cutoff, in any order of nodes |
| Store.MemoryStore.ListHealthHistory | pkg/store/memory.go:127-138 | in each reachable store the answer is complete exactly when no cutoff so far removed a report in question, and shorter otherwise |
| Store.MemoryStore.ListPolicyStatus | pkg/store/memory.go:190-203 | in each reachable store the listing is the end of everything ever reported for the node, cut to the limit or to 50 |
| Store.MemoryStore.ListPolicyDiag | pkg/store/memory.go:219-233 | in each reachable store the listing is the end of everything ever reported for the node, cut to the limit or to 20 |
| Store.MemoryStore.SavePlan | pkg/store/memory.go:271-281 | the plan is current and the last of its bounded history |
| Store.MemoryStore.RollbackPlan | pkg/store/memory.go:300-312 | the first match becomes current and published, or nothing changes |
| ControlPlane.Controller.SavePlanWithRules | pkg/api/controller.go:586-615 | the counter, plans, history and global version after one atomic save |
| ControlPlane.Controller.RecomputeAllPlans | pkg/api/controller.go:641-658 | for some listing, every node in turn gets its peer plan and the rules compiled for it saved |
| ControlPlane.Controller.PrepareHandler | pkg/api/prepare.go:39-94 | a node with a token is left as it is, any other is readdressed; the counter moves on |
| ControlPlane.Controller.RegisterHandler | pkg/api/controller.go:173-327 | the verdict, the merged table, and for every accepted request a full recomputation and one more bump |
| ControlPlane.Controller.PolicyHandler | pkg/api/policy.go:32-60 | rules are repaired and stored with the policy fields unless none is valid or the node is unknown |
| ControlPlane.NormalisedFacts | pkg/api/policy.go:41-46 | a submitted rule keeps path and domains, its prefix is trimmed, and a missing next hop becomes the last hop of the path |
| ControlPlane.TrimSpaceFacts | pkg/api/policy.go:42 | trimming removes exactly the blanks at both ends |
| ControlPlane.Controller.HealthHandler | pkg/api/controller.go:359-392 | the report is stored and a plan that ignores health is saved for a node with an ID only |
| ControlPlane.Controller.PlanHandler | pkg/api/controller.go:453-519 | the answered plan is saved; an unknown node's plan is filed under the empty ID |
| ControlPlane.Controller.HistoryHandler | pkg/api/controller.go:521-541 | in each reachable state the answer is the last 20 plans ever saved for the node |
| ControlPlane.Controller.RollbackHandler | pkg/api/controller.go:543-579 | in a reachable state the rollback is the specified one and never ends in the mismatch branch |
| EndToEnd.RecomputeDeploys | pkg/api/controller.go:641-658 | after a recomputation the latest plan of each listed node holds exactly its compiled rules, its peer plan and its own routing settings |
| EndToEnd.RefreshesKeepPlans | pkg/api/controller.go:378-384 | reports, plan fetches and recomputations in any number and order leave each node with a plan made from some listing and from the reports of its last save |
| EndToEnd.ReportIsRefresh | pkg/api/controller.go:378-384 | what the health handler saves is such a plan, made without reports |
| EndToEnd.FetchIsRefresh | pkg/api/controller.go:453-519 | what the plan handler saves is such a plan, made from all reports, and concerns no listed node when the node is unknown |
| EndToEnd.KnowsIffPlanned | pkg/topology/plan.go:19-67 | a plan has an address for a next hop exactly when it is listed, eligible for the node before it and has an overlay address or a first prefix |
| EndToEnd.ForwardingIgnoresNodeOrder | pkg/api/controller.go:641-658 | when paths agree for a destination and for the default prefix, two recomputations of one table from one set of reports, in any listing orders, give each node the same next hop, or both leave it to announcements |
| EndToEnd.TiedPeersKeepOrder | pkg/topology/plan.go:68-70 | peers without reports are planned in the order of the listing, so peer lists of two listings differ |
| EndToEnd.AgentsRunPublishedIff | pkg/agent/plan.go:309-311 | after any history of pushes, agents run the published rules exactly when none that is sent no rules ever held or was sent any |
| EndToEnd.RegistrationDeploysPaths | pkg/api/controller.go:314-327 | after an accepted registration in any reachable state and any refreshes, whatever the agents hold, their routes retrace all source paths for a destination exactly when the paths agree, every hop is planned or fallen back to, and no agent at the end of a path leads on |
| EndToEnd.RegistrationCarriesHops | pkg/agent/render.go:25-68 | at each planned hop of agreeing paths the agent's route leads to the next hop's overlay, its WireGuard peer admits the destination, and another peer does so exactly when it claims it itself |
| EndToEnd.PlansCarryPreparedKey | pkg/topology/plan.go:60-66 | from the prepare of a node through any run without a key submitted for it, every peer list made from the table carries the public key that belongs to its private key |
| EndToEnd.PushedIsPush | pkg/api/controller.go:617-636 | the configuration assumed for an agent is the one pushed with the saved plan |
| EndToEnd.PlannedPeersAreNamed | pkg/topology/plan.go:60-66 | in a table a controller can have, no planned peer is without ID |
| EndToEnd.ReportKeepsRecordIff | pkg/api/controller.go:378-384 | the push after a health report leaves the agent's record alone exactly when its default route is off, its port 8082 and the rules none or its own |
| EndToEnd.ReportDropsDefaultRoute | pkg/agent/plan.go:312 | after merging that push the agent installs no kernel default route, and no peer admits the default prefix for it |
| Nat.Machine.EnsureNAT | pkg/agent/nat.go:19-81 | the two chains, the saved state and the verdict of one call, for every environment, every set of failing checks, additions and deletions, an unreadable state file and a failed write of it |
| Nat.ConfigPrecedence | pkg/agent/nat.go:24-50 | interface and range have their defaults, and traffic leaves by NAT_EGRESS_IF, else WAN_IF, else the detected device, else the interface |
| Nat.DisabledIff | pkg/agent/nat.go:19-34 | the set-up is off exactly on macOS, without iptables, or when AUTO_NAT spells false in any case |
| Nat.SucceedsIffInstalled | pkg/agent/nat.go:60-80 | whatever fails, a call that is not switched off succeeds exactly when all three rules are in place afterwards and no check overlooked one that could not be added |
| Nat.ReconcilesToLastConfig | pkg/agent/nat.go:52-81 | over any sequence of configurations without failures the chains hold the host's own rules in order and the last configuration's rules once each |
| Nat.RuleStaysIff | pkg/agent/nat.go:52-58 | over any calls for other configurations, failing or not, a rule of either chain is still in place exactly when there were more copies than calls that read a state naming it and could delete one |
| Nat.OrphanedIff | pkg/agent/nat.go:52-78 | which rules a call leaves behind that no later cleanup covers, for every fault, in terms of the state on file, the copies in place and the faults |
| Nat.FailedDeletionOrphans | pkg/agent/nat.go:126-137 | a deletion that fails is ignored: the call succeeds, and the rule stays and is forgotten |
| Nat.LostRulesStay | pkg/agent/nat.go:52-58 | a rule that the saved state does not cover stays so and in place, whatever calls for other configurations follow, failing or not |
| AgentMerge.Agent.HandlePlan | pkg/agent/plan.go:102-106 | the agent's two globals and the next AS number after a plan |
| AgentMerge.StickyText | pkg/agent/plan.go:285-318 | each text field is the last non-empty value sent, or the initial one |
| AgentMerge.StickyLists | pkg/agent/plan.go:300-315 | each list or map is the last non-empty value sent, or the initial one |
| AgentMerge.StickyNumbers | pkg/agent/plan.go:288-312 | AS number and port are the last positive values sent, the port falls back to 8082, and the default-route flag is the last value sent |
| AgentMerge.MergeKeepsOwnFields | pkg/agent/plan.go:275-324 | ID, keys, endpoints and token are the agent's own after any history |
| AgentMerge.PushedRecord | pkg/agent/plan.go:275-324 | after the push of a plan saved for a node the agent has each value the node has set and else its own, and the node's default-route flag |
| AgentMerge.HoldsNoRulesIff | pkg/agent/plan.go:309-311 | an agent has no rules exactly when it started with none and was never sent any |
| AgentMerge.RepeatedConfigCountsOnce | pkg/agent/plan.go:275-324 | merging a configuration twice equals merging it once, after any history |
| AgentMerge.RulesCannotBeCleared | pkg/agent/plan.go:309-311 | after plans without rules an agent writes, for whatever peers the latest plan has, exactly the routes of the rules it held before |
| Text.Itoa | pkg/api/controller.go:781-793 | for every 64-bit value the 20-byte buffer suffices; the text is the decimal digits, and empty for a negative number |
| Text.StripMaskCuts | pkg/frr/bgp.go:71-76 | what is cut off is the first slash and all that follows, if something precedes it |
| Text.StripMaskKeeps | pkg/frr/bgp.go:71-76 | a text without a slash, or starting with one, stays as it is |
| Text.VersionTextRoundTrip | pkg/agent/plan.go:515-523 | the agent reads back every version number from 0 to the 64-bit limit |
| Text.OtherVersionTexts | pkg/agent/plan.go:515-523 | every other version text counts as 0 |
| Plans.AgentReadsVersion | pkg/api/controller.go:595-598 | the agent reads a positive version back from a plan's version text, and 0 from one made of the clock |

## Left out

- The Consul store, HTTP decoding, logins, TLS, MySQL and the frontend are not part of this model.
- Interleaving.EveryInterleavingOk: rollbacks are excluded, because a rollback lowers the counter and versions are then reused (Plans.RollbackReusesVersions); what holds with them is Interleaving.EveryInterleavingIntact.
- Interleaving.SerialisedWritersKeepOrder: one direction, as handlers that overlap can happen to save in order; the exact condition is Interleaving.NeverInvertedIffStoredInOrder.
- Interleaving.UninterruptedIsAtomic: listings and peer plans computed before the save are inputs of the step, so stale listings are not distinguished from fresh ones.
- Plans.RollbackFreeHistoriesIncrease: one direction; the exact condition, rollbacks included, is Plans.HistoriesIncreaseIffCaughtUp.
- HealthWindow.WindowRefinesFullLog: one direction; the exact condition is HealthWindow.QueryIsCompleteIffLossless.
- HealthWindow.SaveLosesOlderReports: the state right after one save; for all runs see HealthWindow.QueryIsCompleteIffLossless.
- ControlPlane.Controller.SavePlanWithRules: the creation time is not modelled; the push to the connected agent is AgentMerge.Push, not a step of the method.
- ControlPlane.Controller.PrepareHandler: the login check, a failing key generation and the response with its start command are not modelled.
- ControlPlane.Controller.HealthHandler: the login check and the audit entry are not modelled; the push is, in EndToEnd.ReportKeepsRecordIff.
- ControlPlane.Controller.PlanHandler: waiting for a newer version, the login check and the version text of the response are not modelled.
- ControlPlane.Controller.RollbackHandler: the login check and the audit entry are not modelled.
- ControlPlane.Controller.RecomputeAllPlans: the health list is read as the stored map instead of being rebuilt from a listing, and one clock text serves all saves.
- ControlPlane.Controller.RegisterHandler: the response, the audit entry and pushes to connected agents are not modelled, nor are tasks and settings.
- ControlPlane.Controller.PolicyHandler: task creation and pushes are not modelled, and prefix trimming is for ASCII blanks only.
- Plans.SignatureIff: the hash is taken to have no collisions; that texts of different lengths can coincide is Plans.SignaturesCollide.
- Plans.EveryRunConsistent: creation times of plans are not modelled, and runs are shorter than 2^63 steps, after which the counter would wrap around.
- Registration.IdentityIsSticky: version counters are unbounded numbers; a 64-bit overflow after 2^63 upserts is not modelled.
- Registration.AssignOverlay: scanning skips spaces and tabs as blanks only; tokens are decimal clock texts whose uniqueness is not claimed.
- Render.RenderRoutes: the other lines of bgpd.conf (router ID, neighbors, networks) are not modelled.
- Render.KernelDefaultIsCarried: of the kernel commands only the choice of the default next hop is modelled; `local` and `main` next hops, bypass rules and pruning of routes printed by the kernel are left out.
- Forwarding.CompilationPreservesPaths: the walk is over the routes of each node's last configuration, by `via` address, for packets from no bypassed source; matching between prefixes is that of a prefix and the default. Which peer WireGuard picks is Forwarding.WireGuardAgreesIff.
- Kernel.Tables.ApplyStaticRoutes: commands succeed and the tables hold nothing from earlier configurations; next hops named `local` or `main`, host routes to next hops, rules for bypassed sources and table 52 are not modelled; peers have IDs (EndToEnd.PlannedPeersAreNamed).
- Prefixes.TargetIff: as for Prefixes.Expand.
- Prefixes.Expand: address parsing, name lookup and GeoIP downloads are one fixed answer per render; parsing of GeoIP files (parseCIDRs) is part of that answer, and letter case is folded for ASCII only.
- Ports.AllocateLocalPorts: splitting host and port is an input function.
- Topology.BuildPeerPlan: the in-place library sort is represented by its unique result; scores are unbounded numbers.
- AgentMerge.Agent.HandlePlan: GeoIP settings carried by a plan, and the race of concurrent plan handlers over the two globals, are not modelled.
- Nat.Machine.EnsureNAT: enabling IP forwarding is not modelled, and a state file that was damaged reads as empty, not as another state.
- Nat.ReconcilesToLastConfig: with failures see Nat.RuleStaysIff and Nat.OrphanedIff; no other program edits the managed rules.
- The mesh status page (buildLinkStatuses), task aggregation, WebSocket connections and tunnel processes would only add easy or runtime-dependent members.
