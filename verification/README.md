# Verified core of the chat server

A Dafny model of the parts of the server whose correctness is hard to see from the code: the failover
protocol of a cluster and what rests on it, video calls, presence, search queries, sorted and deep
merges, the session store, invitations and a rate limiter. `dafny verify dfyconfig.toml` checks all of it.

Protocols are state machines: a pure step per event, a run as the fold of any sequence of events, an
invariant that every step keeps, and theorems about every run: what can never happen, and what the events of the run
bring about. An event that is not possible in a state
leaves the state alone, so a run may be any sequence at all. Code that updates objects or loops over
variables is a class or a method, proved equal to the pure step, so what is proved of the runs holds of
the methods.

- **Cluster.** `LeaderElection` is the election protocol over all nodes at once, with vote requests, vote
  replies and health checks in flight that may be lost, delayed or reordered; `Quorum` holds the majority
  arithmetic and `ElectionProgress` shows that elections succeed. `Failover` is one node over every run of its
  events: its part in an election, the failure counters of its peers, the active nodes and the ring; `NodeRuns`
  says by the events of a run what it has come to, `ClusterNode` is the object, and `FlappingPeer` a pair of runs
  that ends badly. `RingHash` is the consistent hash and `TopicOwnership` the placement of topics by it, over every
  interleaving of ring changes, the hub's visits to its topics, joins, unregistrations and requests; `TopicRuns`
  says which topics are loaded and where requests arrive.
- **Calls.** `VideoCall` is the life of a call in a topic, `CallStory` tells it by the actions since its start, and
  `CallTopic` is the topic object.
- **Presence.** `Presence` is the exchange between topics, `PresenceRuns` says what it leaves on record and which
  replies are owed, and `PresenceTopic` is the contact list of one topic.
- **Text and values.** `SearchQuery` specifies the query language by words and gaps and proves the one-pass
  parser equal to it; `SearchQueryErrors` says which queries are rejected, `SearchQueryWords` what the others mean,
  and `SearchQueryRoundTrip` that parsing undoes printing. `Sorting` and `SliceDelta` are the sorted comparisons,
  `DeepMerge` the merge of structured values.
- **State.** `SessionStore` is the map of sessions with its recency list, `Invites` the tables of invitations
  under interleaved statements and transactions, `InviteRuns` what the statements come to, `InviteStore` the
  statements themselves, `RateLimiter` the fixed-window limiter.

Where a promise is false of the code, the model keeps the code, and the exact condition under which the
promise holds is proved:

- The query parser indexes out of range on blank queries and on no others (`SearchQueryErrors.CrashesExactly`).
- After a ring change the recorded master node of a proxy is stale exactly if the topic moved between two
  other nodes (`TopicOwnership.MasterNodeGoesStale`, with a run in `TopicOwnership.MasterNodeIsStale` for the topics of
  `TopicOwnership.SomeTopicsMove`).
- Reading the ring twice while it changes sends an accepted request to the wrong node exactly if the two rings
  disagree (`TopicOwnership.SplitReads`, with a run in `TopicOwnership.SplitReadsMisroute`).
- A follower crashes, on a nil pointer, exactly if it takes over a ring from a list it is not on
  (`ClusterNode.FailoverNode.HandleHealth`). A peer that is lost and found twice does
  (`FlappingPeer.FlappingCrashes`, `FlappingPeer.CrashWitness`).
- A reconnect hides the other party of a call exactly if it arrives on that party's session
  (`VideoCall.RebindIsTransparent`). It takes a session that acts for two users, as one with root rights can
  (`VideoCall.SharedSessionHidesParty`).
- Clients and contact record drift apart exactly on the requests that are not `Safe`; the shortest case is
  "gone" and then a plain "on" (`Presence.ViewMatchesRecord`, `Presence.OnAfterRemovalDisagrees`).
- The change flag of a merge misses a change exactly if the patch is made of objects and nulls and grafts an
  object, or a nil map, where there was no map (`DeepMerge.ChangeIsMissedExactly`, `DeepMerge.MissedAtTopExactly`).
- A revocation is final, as long as nobody asks for "active" afterwards, exactly if no update that will write
  "active" is under way (`Invites.RevocationIsFinalExactly`); an update that asked for nothing can be such a one
  (`Invites.RevocationCanBeLost`).
- A preview and a registration differ in the very instant of expiry (`Invites.PreviewAgrees`).

## Model

| member | source | states |
|---|---|---|
| LeaderElection.ElectionSafety | server/cluster_leader.go:198-257 | in every run at most one node ever has a majority of the votes of a term, whatever is lost, delayed or reordered |
| LeaderElection.LeaderAgreement | server/cluster_leader.go:285-307 | a known leader is the winner of its node's term, a health check in flight names the winner of its term, two nodes in one term never know different leaders, and so the "wrong leader" branch is unreachable |
| LeaderElection.TermsNeverFall | server/cluster_leader.go:260-347 | over any run from any state the term of a node never decreases |
| ElectionProgress.VoteIsGivenExactly | server/cluster_leader.go:328-342 | in every run an idle voter that gets a request gives its vote, moves to the term and forgets whatever leader it knew, if and only if the term is above its own; otherwise it refuses and stays as it was |
| ElectionProgress.ElectedByMajority | server/cluster_leader.go:198-257 | from any state, a candidate whose requests and votes are delivered becomes the leader of its next term if and only if it and the voters, whatever leaders they knew, are a majority |
| ElectionProgress.LeaderBecomesKnown | server/cluster_leader.go:285-307 | from any state, the idle nodes that a leader's checks reach follow it in its term, except exactly those in a later term |
| ElectionProgress.FailoverCompletes | server/cluster_leader.go:198-342 | whatever leaders are known, an idle node that with idle nodes not ahead of it is a majority can become the leader that all of them know, in a term new to all of them |
| LeaderElection.StepKeeps | server/cluster_leader.go:260-347 | every event keeps: one vote per node and term, replies backed by ballots, vote counters equal to the number of distinct ballots counted, leaders backed by a majority |
| LeaderElection.AtMostOneWinner | server/cluster_leader.go:208-210 | two majorities of the same configuration share a voter, who voted once in the term |
| LeaderElection.SettleKeeps | server/cluster_leader.go:230-256 | closing the vote count makes a leader only of a node with a majority of the ballots of its term |
| LeaderElection.OwnVote | server/cluster_leader.go:199-201 | a node that starts a term has given no vote in it before, so its vote for itself is its only one |
| LeaderElection.CountedReply | server/cluster_leader.go:230-243 | a granted reply is the ballot of a voter the election has not counted yet |
| Quorum.Overlap | server/cluster_leader.go:208-210 | two sets that are each more than half of a finite set have a common element |
| ClusterNode.FailoverNode.HandleVoteRequest | server/cluster_leader.go:328-342 | a vote is given if and only if the requested term is above the node's own, with the new term and no leader, and the step is that of the protocol and of the node's run |
| ClusterNode.FailoverNode.ElectLeader | server/cluster_leader.go:198-257 | for every sequence of replies, failed calls and timer, the loop ends where the event-by-event election ends: one term on, leading if and only if a majority came in before anything stopped it |
| ClusterNode.FailoverNode.CountVotes | server/cluster_leader.go:222-256 | the loop ends with a majority if and only if the protocol's election makes the node leader |
| ClusterNode.FailoverNode.HandleHealth | server/cluster_leader.go:285-326 | the process crashes if and only if the check is current, names another ring, is the second such one and omits this node; otherwise term, leader, patience, ring, skip flag and collected peers are stated, and an outdated check changes nothing |
| ClusterNode.FailoverNode.Tick | server/cluster_leader.go:271-284 | the object after a heartbeat is the node's next state; a leader sends the state from before the round |
| ClusterNode.FailoverNode.SendHealthChecks | server/cluster_leader.go:151-196 | one round is the detector's round for every iteration order and every set of reachable peers; ring and collected sessions follow the new active set |
| ClusterNode.FailoverNode.ProbePeers | server/cluster_leader.go:154-177 | the per-peer counting loop, in any order, yields the counters of the round and asks for a rehash exactly if some peer crosses the limit |
| ClusterNode.FailoverNode.Rebuild | server/cluster_leader.go:179-192 | the rebuilt list is self and the peers below the limit without duplicates, the ring is that of this set although the list is sorted in place, and the collection never crashes |
| ClusterNode.FailoverNode.GcProxySessions | server/cluster.go:1170-1195 | crashes if and only if this node is missing from the list; otherwise the peers visited are, once each, exactly those missing from it |
| ClusterNode.FailoverNode.IsPartitioned | server/cluster.go:824-835 | not partitioned if and only if the active nodes are a strict majority of the configured ones |
| ClusterNode.FailoverNode.constructor | server/cluster_leader.go:88-124 | starts with every configured node active and the ring of exactly those, in the initial state of the node's runs |
| Failover.DetectionIsExact | server/cluster_leader.go:151-189 | after every sequence of rounds the active set is self and exactly the peers below the limit, if and only if the limit is positive |
| Failover.ActiveIsExact | server/cluster_leader.go:151-347 | in every run of votes, heartbeats and health checks, as leader or follower, the active nodes are self and exactly the peers below the limit |
| Failover.CheckOmitsFailed | server/cluster_leader.go:154-163 | in every run a health check omits exactly the peers that have failed up to the limit, the check that finds a peer back included |
| Failover.FollowersNoticeNothing | server/cluster_leader.go:312-322 | a node that has not led in a run takes every configured node to be active and never reports a partition |
| NodeRuns.ElectedExactly | server/cluster_leader.go:222-256 | an election makes the node leader if and only if some first part of the outcomes, at most one per other node, makes a majority and holds neither the timer nor a refusal from a later term |
| NodeRuns.PatienceIsExact | server/cluster_leader.go:271-284 | in any run a node that does not lead stands for election exactly at the heartbeat that exhausts its patience, whatever votes it gives in between, and leads after it exactly if a majority voted for it in time |
| NodeRuns.CheckRestoresPatience | server/cluster_leader.go:285-312 | a check that is not outdated makes the node follow its sender with all its patience, an outdated one does nothing |
| NodeRuns.InactiveExactly | server/cluster_leader.go:151-189 | in every run a peer is taken to be down if and only if each of the last rounds the node led, as many as the limit, missed it |
| NodeRuns.EverySecondCheckCounts | server/cluster_leader.go:312-326 | in every run the ring of a node that has not led is that of all nodes, or of the list in the latest second, fourth and so on check that differed, and the skip flag is the parity of these checks |
| FlappingPeer.FlappingCrashes | server/cluster_leader.go:312-320 | for every failure limit and term, after any run of the leader that has every peer at zero failures and any run of the peer that leaves it on the ring of all nodes, a peer that is lost and found twice crashes on the checks the leader sends |
| FlappingPeer.CrashWitness | server/cluster.go:1184-1189 | for the consistent hash with any replicas, any limit and any patience, a run that makes a leader and the two checks it sends that end in this crash |
| Failover.HashBuilds | server/ringhash/ringhash.go:70-97 | the consistent hash does not depend on the order of its members, and one more member makes another ring |
| Failover.NoCrossingNoChange | server/cluster_leader.go:164-176 | the set of live peers changes in a round if and only if some peer crosses the limit, so rebuilding only then loses nothing |
| Failover.UnpartitionedOverlap | server/cluster.go:824-835 | after any runs of two nodes of a cluster, if both take themselves to be in the larger part, some node is below the failure limit, or itself, for both |
| RingHash.GetBySearch | server/ringhash/ringhash.go:100-120 | binary search on the sorted ring finds the node that the linear definition names |
| RingHash.SuccessorIsNearest | server/ringhash/ringhash.go:100-120 | the point found is the nearest one clockwise among all points, wrap-around included |
| RingHash.RingExactly | server/ringhash/ringhash.go:70-80 | a ring holds exactly the replicas of its nodes, ordered by hash and, where these are equal, by name |
| RingHash.OrderIndependent | server/ringhash/ringhash.go:70-97 | nodes that list the same members in any order build the same ring |
| RingHash.OwnerIsMember | server/ringhash/ringhash.go:100-120 | every topic is owned by a node of the ring |
| RingHash.OnlyNewcomerGains | server/ringhash/ringhash.go:70-120 | when a node joins, a topic either moves to it or stays where it was |
| TopicOwnership.SettledNodesAreRight | server/hub.go:165-198 | in every run, once a hub has handled its latest ring change, each loaded topic is a proxy if and only if another node owns it |
| TopicOwnership.SingleMaster | server/hub.go:295-309 | two settled nodes with equal rings never both run a topic as master |
| TopicOwnership.SameMembersSingleMaster | server/hub.go:295-309 | the same for nodes whose rings were built from the same members in any order |
| TopicOwnership.AcceptedAtOwner | server/cluster.go:507-511 | over any ring changes while it travels, a request that passes the signature check is at the owner by the receiver's own ring, and a settled receiver runs the topic as master |
| TopicOwnership.SplitReads | server/cluster.go:837-898 | if signing and addressing read different rings, an accepted request is at the owner if and only if both rings name the same owner |
| TopicOwnership.SplitReadsMisroute | server/cluster.go:837-898 | from the start of a cluster of three: a node loses another between signing and addressing, and the third takes a request for a topic that its own ring gives to the lost one |
| TopicOwnership.MasterNodeGoesStale | server/hub.go:182-191 | after a ring change the recorded master nodes are all right if and only if no proxied topic moved between two other nodes |
| TopicOwnership.MasterNodeIsStale | server/hub.go:182-191 | from the start of a cluster of three: a node loads a proxy, its master is lost and the topic moves to the third node, and the settled node goes on naming the lost one |
| TopicOwnership.SomeTopicsMove | server/ringhash/ringhash.go:70-120 | a hash with which almost every topic moves between the two other nodes in these runs |
| TopicOwnership.StepKeepsRoles | server/hub.go:151-309 | every step, ring changes in the middle of the hub's visits included, keeps the visited topics in the right role unless a newer change is pending, whatever the signatures |
| TopicOwnership.StepKeepsRequests | server/cluster.go:837-898 | every step keeps each request in flight addressed by any ring that has its signature |
| TopicOwnership.VisitsSettle | server/hub.go:299-309 | without a ring change in between, visiting the topics in any order leaves exactly those in the right role |
| TopicRuns.TopicChangesExactly | server/hub.go:165-309 | a join loads a topic that is not loaded, as a proxy of the owner or as a master by the current ring; an unregistration or a visit that finds it in the wrong role unloads it; no other step of any node touches it |
| TopicRuns.LoadedStays | server/hub.go:295-309 | over every run a loaded topic stays as it is until it is unregistered or visited in the wrong role |
| TopicRuns.OwnerRunsTopic | server/hub.go:165-198 | after any run, a settled owner runs a topic as master from its first join on, until its ring changes or the topic is unregistered |
| TopicRuns.ExactlyOneMaster | server/hub.go:295-309 | when all nodes are settled on one ring and have joined a topic, exactly its owner runs it as master |
| TopicRuns.SentExactly | server/cluster.go:876-898 | a node sends one request, to the owner by its ring, if and only if that is another configured node |
| TopicRuns.ArrivesExactly | server/cluster.go:507-511 | over any run a request travels until it is taken, and is accepted if and only if it is not a farewell and the receiver by then has the ring of the sender |
| TopicOwnership.Hub.HandleJoin | server/hub.go:165-195 | a topic that is not loaded is loaded, as a proxy with the owner's name if another node owns it by the current ring and as a master if not; loaded topics are left alone |
| TopicOwnership.Hub.TopicUnreg | server/hub.go:542-552 | the topic and no other is dropped, loaded or not |
| TopicOwnership.Hub.HandleRehash | server/hub.go:295-309 | visiting the topics in any order and dropping while iterating keeps exactly those in the right role |
| TopicOwnership.Hub.RouteToTopicMaster | server/cluster.go:876-898 | at most one request, to the configured owner of the topic, never to self |
| TopicOwnership.Hub.TopicMaster | server/cluster.go:469-612 | a request passes if and only if it comes from a known peer, is not a farewell and carries the current signature; it is handed on if its type is known as well, and otherwise, from a known peer and not a farewell, reported as rejected |
| VideoCall.CallHistory | server/calls.go:241-432 | in every run each past call has failed acceptances, at most one successful one and exactly one final record: finished only after acceptance, declined and missed only without; the current call has no final record |
| VideoCall.CallShape | server/calls.go:208-376 | in every run a call has one or two parties of different users under their own session ids and one originator, the timer runs only before acceptance, and everything forwarded goes to a session of another user |
| CallStory.TheStory | server/calls.go:222-506 | in any topic the actions since the start of a call tell its state: caller and callee on their latest sessions, the timer, the acceptances tried and everything forwarded, in order |
| CallStory.FinalRecordExactly | server/calls.go:379-432 | what ends a call writes "finished" exactly for a hang-up after a saved acceptance, "declined" for one before that by another user than the caller, "missed" for one by the caller or when the time is up, and "disconnected" when the server ends it, and changes nothing else |
| CallStory.EndsExactly | server/calls.go:351-506 | a call ends exactly on a disconnect, when the time is up before an acceptance, or on a hang-up: before the acceptance of anybody, the caller on its own session only, after it of either side on any session |
| CallStory.EveryCallHasAStory | server/calls.go:222-237 | in every run with a call at the end, the actions since some new call are such a story and lead to the state |
| VideoCall.RebindIsTransparent | server/calls.go:442-463 | a reconnect leaves users and roles of the call unchanged if and only if its session is not already the other party's, and then keeps the shape |
| VideoCall.SharedSessionHidesParty | server/calls.go:442-463 | a run in which the callee accepts on a session that then subscribes for the caller, and the callee is no longer in the call |
| VideoCall.ReconnectsAreTransparent | server/calls.go:442-463 | any sequence of reconnects leaves view, number, timer, history and traffic of the call unchanged |
| VideoCall.OtherCallsAreSafe | server/calls.go:253-257 | in every run an event with the number of a past call changes nothing |
| VideoCall.StepKeeps | server/calls.go:222-506 | every event, timeout, disconnect and reconnect keeps the shape of the call, the histories and the direction of forwards |
| VideoCall.EndKeeps | server/calls.go:379-432 | whatever ends a call, its history becomes complete with exactly one final record that fits the stage; which record it is, `CallStory.FinalRecordExactly` says |
| CallTopic.TopicWithCall.GetCallOriginator | server/calls.go:208-218 | in any order of the parties, finds an originator if and only if there is one; in a call of the proved shape it is unique |
| CallTopic.TopicWithCall.IsCallParticipant | server/calls.go:468-481 | true exactly for a session of a party or a user of a party |
| CallTopic.TopicWithCall.HandleCallInvite | server/calls.go:222-237 | starts a well-formed one-party call with the timer running |
| CallTopic.TopicWithCall.HandleCallEvent | server/calls.go:241-376 | the object after an event is the state machine's next state, and still well formed |
| CallTopic.TopicWithCall.HandleRingingOrAccept | server/calls.go:268-315 | acceptance adds the callee only if it was saved; the originator lookup cannot fail |
| CallTopic.TopicWithCall.HandleMetadata | server/calls.go:317-349 | in any order of the parties the one other party gets the message, and only in an established call from a party |
| CallTopic.TopicWithCall.HandleHangUp | server/calls.go:351-371 | the call ends exactly if the sender may hang up at this stage |
| CallTopic.TopicWithCall.MaybeEndCallInProgress | server/calls.go:379-432 | the call is gone and the timer off, with one final record: finished for a user in an established call, missed or declined before that for the caller or another user, missed or disconnected for the server, even if saving fails |
| CallTopic.TopicWithCall.TerminateCallInProgress | server/calls.go:484-506 | the server's end of a call is the state machine's, after which there is no call |
| CallTopic.TopicWithCall.RefreshCallPartySession | server/calls.go:442-463 | in any order of the parties the user's entry moves to the new session; the shape is kept unless it collides with the other party |
| Presence.ViewMatchesRecord | server/pres.go:97-204 | over every run of requests from anybody, what clients show of a contact equals the record throughout, if and only if each request of the contact is safe when it arrives |
| Presence.SafeExactly | server/pres.go:143-204 | one request keeps view and record in agreement if and only if it is safe, a condition on status, command and record |
| Presence.EverydayRunsAgree | server/pres.go:113-204 | for a listed contact every run of on, off, ?none, ?unkn, plain or with +en, and off+dis keeps the agreement |
| PresenceRuns.RecordIsLatestReport | server/pres.go:143-189 | over every run in which a listed contact is not removed, it is enabled exactly if the latest command about that enabled it, and online exactly if its latest report that reached an enabled record, not made void since, was "on" |
| PresenceRuns.ListedExactly | server/pres.go:143-204 | a request about a status leaves its sender listed if and only if it does not ask for removal; a new sender is recorded by the status and command it sent |
| PresenceRuns.AnswersExactly | server/pres.go:206-223 | a topic answers a message exactly if it asks for a reply and says on or ?unkn, with off+rem to a listed sender that leaves and on to any other, and asks back only after ?unkn |
| PresenceRuns.ExchangeCompletes | server/pres.go:97-226 | between two topics that list and enable each other, ?unkn starts an exchange of exactly three deliveries that leaves each on record as online at the other |
| PresenceRuns.SplitAtPlus | server/pres.go:113-118 | the status is what comes before the first plus, the command what comes between that and the next |
| Presence.OnAfterRemovalDisagrees | server/pres.go:191-199 | a removal followed by a plain "on" is recorded as online and not shown |
| Presence.LoadedContactsAreOffline | server/pres.go:46-79 | loading lists exactly the other subscriptions, P2P ones under the other user, all offline, each enabled exactly if its last subscription is a presencer |
| Presence.OthersDoNotMatter | server/pres.go:97-226 | a request leaves the records of all other contacts alone |
| Presence.RepliesDieOut | server/pres.go:206-223 | whatever the topics and the order of delivery, an exchange ends within three deliveries per initial message |
| Presence.DeliveryLowersWeight | server/pres.go:206-223 | every delivery strictly lowers the total weight of the messages in flight |
| PresenceTopic.ContactList.HandleRequest | server/pres.go:97-226 | record, forwarded status and reply are those of the specification and, case by case, stated outright; it panics exactly on an unknown command from a listed contact |
| PresenceTopic.ContactList.UpdateListed | server/pres.go:154-189 | the nested switch comes to one rule: the record follows the command, and a status is passed on exactly if it is news |
| PresenceTopic.ContactList.LoadContacts | server/pres.go:69-79 | the loading loop fills the list as the specification does |
| PresenceTopic.ContactList.Add | server/pres.go:46-64 | a contact other than self is recorded, a P2P topic under the other user |
| SearchQuery.Scan | server/utils.go:554-664 | the one-pass loop computes exactly the tokens or the error of the word-and-gap specification, whose meaning `SearchQueryWords` and `SearchQueryErrors` give by positions, and an index is out of range if and only if the query is empty |
| SearchQuery.EmitToken | server/utils.go:644-658 | cutting a token out indexes outside the query exactly on the stated bounds, and gives the word without its quotes whenever the bounds are those of a word |
| SearchQuery.ParseSearchQuery | server/utils.go:529-682 | for every query the outcome, crash included, is the specification's: words in order, optional if and only if a comma is in the gap just before or just after |
| SearchQueryErrors.RejectedExactly | server/utils.go:588-643 | a query that is not blank is rejected if and only if it has a second comma in one run of separators, a quote opened after an ordinary character or an unclosed quote, and the error is the first of these |
| SearchQueryErrors.CrashesExactly | server/utils.go:561-651 | the index out of range at the end of the query happens on blank queries and on no others |
| SearchQueryWords.AcceptedExactly | server/utils.go:554-681 | an accepted query gives, in order, its maximal runs of characters that are not separators outside quotes, each in lower case and without one surrounding pair of quotes, unless then empty; a run is optional if and only if there is a comma among the separators just before or just after it |
| SearchQueryWords.TrimmedExactly | server/utils.go:557 | what is parsed is the query without all the white space at both ends |
| SearchQueryRoundTrip.RoundTrip | server/utils.go:529-682 | printing two lists of quoted tokens and parsing the result gives the two lists back |
| SliceDelta.StringSliceDelta | server/utils.go:74-114 | with duplicates, empty slices and even one slice given twice, the results are the multiset differences and the intersection, and the slices are only permuted |
| SliceDelta.Walk | server/utils.go:89-112 | the side-by-side walk splits two sorted lists into what they share and disjoint rests |
| SliceDelta.SplitIsAlgebra | server/utils.go:71-73 | shared part and disjoint rests determine difference and intersection of multisets |
| SliceDelta.FilterTags | server/utils.go:350-370 | keeps exactly the tags of the namespaces, in order |
| SliceDelta.RestrictedInOrder | server/utils.go:350-370 | filtering keeps the order: the tags of a first part come before those of the rest |
| SliceDelta.RestrictedTagsEqual | server/utils.go:417-436 | true if and only if every restricted tag occurs equally often in both lists |
| Sorting.SortedIsUnique | server/utils.go:425-426 | two sorted lists with the same elements are equal, which is why comparing position by position is enough |
| DeepMerge.MergeMaps | server/utils.go:835-877 | visiting the fields in any order gives the field-by-field merge, an empty or nil source leaves the target, and the flag says whether the patch has any value at all, whatever was there |
| DeepMerge.MergeInterfaces | server/utils.go:802-832 | the merge for values of any kind; a nil map is an empty patch here although it is a value in a field, and a deletion marker reports a change exactly if there was something |
| DeepMerge.MergedAtPath | server/utils.go:802-877 | for every patch, target and path, the merge leaves at the path what the patch asks for there: a null or an unnamed field keeps, a value replaces, a marker drops, an object makes a map |
| DeepMerge.ReportedExactly | server/utils.go:835-877 | the flag says whether the patch holds a value or a marker at the end of any path |
| DeepMerge.MergeTwice | server/utils.go:835-877 | merging the same patch into a field again changes nothing, for every field and every patch |
| DeepMerge.MergeAgain | server/utils.go:802-832 | the same for values of any kind |
| DeepMerge.AgreesExactly | server/utils.go:802-877 | the merge is MergePatch of section 2 of RFC 7396 for every target if and only if the patch is not a nil map and has no null and no empty object anywhere |
| DeepMerge.Disagreement | server/utils.go:802-877 | any other patch comes with a target on which the two differ |
| DeepMerge.ChangeIsMissedExactly | server/utils.go:798-856 | a merge that reports no change changes something if and only if it grafts an object where there was no map |
| DeepMerge.MissedAtTopExactly | server/utils.go:802-832 | the same for values of any kind, where a nil map is grafted like an empty object |
| SessionStore.MapAndListAgree | server/sessionstore.go:76-242 | after every run, with ids of other sessions coming back and any session ever opened removed at any time and again, the list is exactly the long-poll sessions of the map, each once, the latest used first |
| SessionStore.OpeningDropsTheStale | server/sessionstore.go:118-144 | opening a session drops exactly the long-poll sessions unused since the cutoff, never the new one, and leaves all others as they were |
| SessionStore.EarlyExitIsComplete | server/sessionstore.go:131-144 | on a list in order, stopping at the first session that is not stale has found all the stale ones |
| SessionStore.DeletedIsGoodExactly | server/sessionstore.go:180-190 | map and list agree after a deletion if and only if the id does not belong to a long-poll session other than the deleted one |
| SessionStore.RemoveKeeps | server/sessionstore.go:180-190 | in a run the removal of a session of the past never hits a long-poll session of the present, because the ids of those are generated |
| SessionStore.EvictsExactly | server/sessionstore.go:223-242 | evicting a user leaves exactly the sessions of other users, the skipped one and the multiplexing ones, as they were |
| SessionStore.SignedInIsEvicted | server/session.go:1074-1077 | a session that signs in as a user goes when that user is evicted, and no other goes because of it |
| SessionStore.TouchedIsGood | server/sessionstore.go:163-177 | a session brought to the front with the current time keeps the list in order |
| SessionStore.Store.NewSession | server/sessionstore.go:76-160 | a used id is fatal and changes nothing; otherwise the new session is in and the stale ones are out, and those are the ones returned for clean-up |
| SessionStore.Store.Expire | server/sessionstore.go:131-144 | the loop from the back leaves map and list without all stale sessions |
| SessionStore.Store.Get | server/sessionstore.go:163-177 | finds the session of the id; only a long-poll session is touched and moved |
| SessionStore.Store.Delete | server/sessionstore.go:180-190 | for any session, stored or not, its id leaves the map and its own element, known by identity, leaves the list |
| SessionStore.Store.EvictUser | server/sessionstore.go:223-242 | deleting while iterating in any order removes exactly the user's sessions, except the skipped one and multiplexing ones, and keeps the order of the rest |
| SessionStore.Store.SignIn | server/session.go:1074-1077 | setting the user of a session leaves order and agreement alone |
| Invites.Accounting | server/invites_postgres.go:190-397 | over every interleaving of creates, halves of updates, revocations and transactions, the use count of an invite is the number of people registered with it, and at most 20 |
| Invites.Registers | server/invites_postgres.go:301-397 | in every run a transaction ends in a registration if and only if the invite, as it is at the commit, is active, in date, with a use left, not the user's own, the user is new and no statement is refused; then the row counts one use more and stays active exactly if uses are left, the user is recorded with the inviter and the code of the invite, one signal per reason is added in order, and nothing else changes; otherwise nothing changes |
| Invites.OneGuestMore | server/invites_postgres.go:355-362 | with a registration the guests of the invite grow by this user and those of no other invite change |
| InviteRuns.RegistrationsAreTraced | server/invites_postgres.go:355-362 | in every run a registration names an invite that exists and carries its inviter and its code |
| InviteRuns.ColumnsLast | server/invites_postgres.go:190-397 | over every run the code and the inviter of an invite never change and its count never falls |
| InviteRuns.CreatesExactly | server/invites_postgres.go:115-152 | a creation adds one active, unused invite with the given limit, at least one, and end if and only if request, id and code are acceptable |
| InviteRuns.UpdatesExactly | server/invites_postgres.go:190-243 | whatever happens between its halves, an update overwrites status, limit and expiry with the row as it was read and the request laid over it, and leaves all other columns and rows as they are by then; a bad request or another user's invite does nothing |
| InviteRuns.RevokesExactly | server/invites_postgres.go:245-258 | a revocation of a free row by its owner makes it revoked, and one by anybody else does nothing |
| Invites.RegistrationsLast | server/invites_postgres.go:355-362 | over every run a registration is never changed or lost |
| Invites.PreviewAgrees | server/invites_postgres.go:154-188 | a preview says valid if and only if the checks of a registration pass and the invite does not expire this instant, shows "expired" exactly for the refusal of that name and the stored status otherwise, and the uses left |
| Invites.PreviewIsKept | server/invites_postgres.go:154-188 | in every reachable state, if nothing comes between, a stranger can register with an invite previewed as valid |
| Invites.RevocationHolds | server/invites_postgres.go:245-258 | an invite that is not active stays so and takes in nobody as long as no update writes "active" |
| Invites.RevocationIsUndoneExactly | server/invites_postgres.go:190-258 | over a run, an inactive invite becomes usable at some moment if and only if some update's second half wrote "active" into it |
| Invites.RevocationIsFinalExactly | server/invites_postgres.go:190-258 | an inactive invite stays unusable in every run in which nobody asks for "active", if and only if no pending update of it holds "active", also while a transaction holds the row |
| Invites.RevocationCanBeLost | server/invites_postgres.go:190-243 | an update that asks for nothing, begun before a revocation and written after it, restores every table to what it was before |
| Invites.StepKeeps | server/invites_postgres.go:115-397 | every statement keeps counts, limits and unique codes, and what an open transaction has read stays what its row holds |
| InviteStore.Storage.Consume | server/invites_postgres.go:301-397 | the checks in order decide the refusal; a registration adds the row with this inviter and code, the signals and the use; any refusal or failed statement leaves nothing, not even the "expired" already written |
| InviteStore.Storage.Create | server/invites.go:178-207 | counts are clamped to 1 and refused above 20, days outside 0 to 90 are refused, and a repeated id or code creates nothing |
| InviteStore.Storage.ReadForUpdate | server/invites_postgres.go:190-228 | what the update will write: the request laid over the whole row as read, or nothing for a bad request or another user's invite |
| InviteStore.Storage.WriteUpdate | server/invites_postgres.go:230-243 | status, limit and expiry are overwritten with the plan, the use count is not |
| InviteStore.Storage.Revoke | server/invites_postgres.go:245-258 | only the owner's invite is revoked, and nothing else changes |
| InviteStore.Storage.Preview | server/invites_postgres.go:154-188 | the preview of the one invite with the code, none if and only if no invite has it |
| InviteStore.ConsumeIsTwoSteps | server/invites_postgres.go:301-397 | consuming is taking the row lock and finishing in the interleaved model |
| RateLimiter.SlidingBound | server/legacy_migration.go:39-59 | in any ten minutes, wherever they start, at most 20 requests of a key get through, 19 if the last instant does not count |
| RateLimiter.WindowBound | server/legacy_migration.go:39-59 | the counter of a key is the number of grants in its current window, at most ten |
| RateLimiter.GrantedExactly | server/legacy_migration.go:39-59 | a request gets through if and only if fewer than ten got through in the window it falls into, at whatever time it comes |
| RateLimiter.TwoBurstsAreGranted | server/legacy_migration.go:39-59 | the bound of 20 is met, for every key and every start |
| RateLimiter.KeysAreIndependent | server/legacy_migration.go:39-59 | the grants and the state of a key are those of its own requests alone |
| RateLimiter.EndpointRateLimiter.Allow | server/legacy_migration.go:39-59 | extends every run by one request; a refusal changes nothing, so it cannot extend a window |

## Left out

- HTTP, websocket, long-poll and gRPC handlers, TLS, file and image handling: input and output.
- Dialling, reconnecting and calling other nodes, tickers and channel capacities: messages are lost, delayed and reordered at will, and timers fire at will.
- Restarts of cluster nodes: a term is kept in memory only, so a restarted node could vote twice; nodes may fall silent in the model but not restart.
- Clusters of fewer than three nodes, where failover is switched off at the start.
- Ring signatures: `TopicOwnership` takes a signature function that tells different rings apart, `Failover` compares the rings themselves; the 128-bit digest is not modelled.
- `Route` and `routeToTopicIntraCluster`: the same signature gate and addressing as `TopicMaster` and `RouteToTopicMaster`.
- `invalidateProxySubs`, the multiplexing sessions of a master topic and the joining of the "sys" topic after a rehash beyond an ordinary join.
- The number of loaded topics kept by the hub, and hub steps other than join, unregister and rehash.
- Content, head, duration and acceptance time of call messages, the broadcast of a hang-up to bystanders, and copies of proxied sessions in a call.
- Branches for a call without an originator: kept in the pure state machine; the methods of `CallTopic.TopicWithCall` require the shape of which it is proved that every run keeps it.
- Notifications sent by a topic on its own account (`presUsersOfInterest` and the like): they change a record without telling clients.
- Lower-casing and the tag expression: `lower` and `prefix` are arbitrary functions; positions in parser errors count characters, and invalid UTF-8 is not modelled.
- DeepMerge.MergeMaps: does not model that the destination map is updated in place and shared with its owner, because maps are values here.
- DeepMerge.MergeInterfaces: does not model values that are neither JSON nor maps beyond an opaque kind, because the code only copies them.
- SessionStore.Store.Get: does not model that map and list share one session object, because sessions are values here; the new time is written to both.
- SessionStore.Store.NewSession: does not model the gap between the duplicate check and the insertion, because store operations are taken as serialised.
- `Range`, `Shutdown` and `NodeRestarted` of the session store, the stopping of evicted sessions and the statistics.
- SliceDelta.SortStrings: does not model the sorting algorithm, because the library promises only the sorted permutation.
- Trimming and upper-casing of invite codes, generation of ids and codes, notes and time stamps; ids and codes are only compared.
- Suspicion scores: the reasons of a registration are arbitrary.
- Row locks of statements other than the locking read: a single statement is one step that waits while a transaction holds the row; registering the same user in two transactions at once is ordered by their commits.
- The time until the end of a window reported by the limiter depends on the wall clock, which is a parameter.
- Reactions, notes, push, plugins, phone verification, access modes and the database adapters: thin wrappers or easy members.
