/** How a peer that is lost and found again ends in a crash: a run of the leader and a run of the peer. */
module FlappingPeer {
  import opened Failover
  import opened Quorum
  import LeaderElection
  import RingHash

  // ----- the leader

  /** Whom a leader takes to be active when it has failed k times in a row to reach f, and reaches all others. */
  function Believed(c: Setup, f: string, k: nat): set<string> {
    if k < c.limit then {c.self} + c.peers else {c.self} + c.peers - {f}
  }

  ghost predicate MissesPeer(c: Setup, n: Node, term: nat, f: string, k: nat) {
    && n.core == LeaderElection.Node(term, c.self, LeaderElection.Idle)
    && n.detector.fails.Keys == c.peers
    && (forall p <- n.detector.fails :: n.detector.fails[p] == if p == f then k else 0)
    && n.detector.active == Believed(c, f, k) && n.ring == RingOf(c.build, Believed(c, f, k))
  }

  lemma BelievedIsAlive(c: Setup, fails: map<string, nat>, f: string, k: nat)
    requires c.limit >= 1 && c.self !in c.peers && f in c.peers && fails.Keys == c.peers
    requires forall p <- fails :: fails[p] == if p == f then k else 0
    ensures {c.self} + Alive(fails, c.limit) == Believed(c, f, k)
  {
    forall p ensures p in {c.self} + Alive(fails, c.limit) <==> p in Believed(c, f, k) {
    }
  }

  /** One more round that does not reach f. */
  lemma MissesAgain(c: Setup, n: Node, term: nat, f: string, k: nat)
    requires c.limit >= 1 && c.self !in c.peers && f in c.peers && k < c.limit && MissesPeer(c, n, term, f, k)
    ensures MissesPeer(c, AfterRound(c, n, c.peers - {f}), term, f, k + 1)
  {
    var fails, reached := n.detector.fails, c.peers - {f};
    var next := NextFails(fails, reached);
    forall p <- next ensures next[p] == if p == f then k + 1 else 0 { }
    BelievedIsAlive(c, next, f, k + 1);
    if k + 1 == c.limit {
      assert CrossesAt(fails, c.limit, reached, f);
    } else {
      forall p <- fails ensures !CrossesAt(fails, c.limit, reached, p) { }
    }
  }

  /** The round that reaches f again. */
  lemma FindsPeer(c: Setup, n: Node, term: nat, f: string, k: nat)
    requires c.self !in c.peers && f in c.peers && k == c.limit && k >= 1 && MissesPeer(c, n, term, f, k)
    ensures MissesPeer(c, AfterRound(c, n, c.peers), term, f, 0)
  {
    var next := NextFails(n.detector.fails, c.peers);
    forall p <- next ensures next[p] == 0 { }
    BelievedIsAlive(c, next, f, 0);
    assert CrossesAt(n.detector.fails, c.limit, c.peers, f);
  }

  ghost predicate RunMisses(c: Setup, events: seq<Event>, term: nat, f: string, k: nat) {
    LifeMisses(c, Run(c, events), term, f, k)
  }

  /** The same event k times more. */
  function Repeat(start: seq<Event>, e: Event, k: nat): seq<Event> {
    if k == 0 then start else Repeat(start, e, k - 1) + [e]
  }

  /** A round that does not reach f. */
  function Missing(c: Setup, f: string): Event {
    Heartbeat(c.peers - {f}, [])
  }

  /** The leader loses f. */
  function LoseOnce(c: Setup, start: seq<Event>, f: string): seq<Event>
    requires c.limit >= 1
  {
    Repeat(start, Missing(c, f), c.limit)
  }

  /** The leader loses f, finds it and loses it again. */
  function LoseTwice(c: Setup, start: seq<Event>, f: string): seq<Event>
    requires c.limit >= 1
  {
    LoseOnce(c, LoseOnce(c, start, f) + [Heartbeat(c.peers, [])], f)
  }

  /** A step taken k times. */
  function Iterate<S>(step: S -> S, s: S, k: nat): S {
    if k == 0 then s else step(Iterate(step, s, k - 1))
  }

  lemma {:induction false} IterateKeeps<S(!new)>(step: S -> S, holds: (S, nat) -> bool, s: S, k: nat)
    requires holds(s, 0) && forall x, i: nat :: i < k && holds(x, i) ==> holds(step(x), i + 1)
    ensures holds(Iterate(step, s, k), k)
  {
    if k > 0 { IterateKeeps(step, holds, s, k - 1); }
  }

  ghost function Stepper(c: Setup, e: Event): Life -> Life {
    l => Step(c, l, e)
  }

  lemma {:induction false} RunRepeat(c: Setup, start: seq<Event>, e: Event, k: nat)
    ensures Run(c, Repeat(start, e, k)) == Iterate(Stepper(c, e), Run(c, start), k)
  {
    if k > 0 {
      RunRepeat(c, start, e, k - 1);
      NextEvent(c, Repeat(start, e, k - 1), e);
    }
  }

  ghost predicate LifeMisses(c: Setup, l: Life, term: nat, f: string, k: nat) {
    l.Up? && MissesPeer(c, l.node, term, f, k)
  }

  lemma MissStep(c: Setup, l: Life, term: nat, f: string, k: nat)
    requires c.limit >= 1 && c.self !in c.peers && f in c.peers && k < c.limit && LifeMisses(c, l, term, f, k)
    ensures LifeMisses(c, Stepper(c, Missing(c, f))(l), term, f, k + 1)
  {
    MissesAgain(c, l.node, term, f, k);
  }

  lemma LosesFrom(c: Setup, l: Life, term: nat, f: string, k: nat)
    requires c.limit >= 1 && c.self !in c.peers && f in c.peers && k <= c.limit && LifeMisses(c, l, term, f, 0)
    ensures LifeMisses(c, Iterate(Stepper(c, Missing(c, f)), l, k), term, f, k)
  {
    ghost var holds := (x: Life, i: nat) => LifeMisses(c, x, term, f, i);
    forall x, i: nat | i < k && holds(x, i) ensures holds(Stepper(c, Missing(c, f))(x), i + 1) {
      MissStep(c, x, term, f, i);
    }
    IterateKeeps(Stepper(c, Missing(c, f)), holds, l, k);
  }

  lemma Loses(c: Setup, start: seq<Event>, term: nat, f: string, k: nat)
    requires c.limit >= 1 && c.self !in c.peers && f in c.peers && k <= c.limit && RunMisses(c, start, term, f, 0)
    ensures RunMisses(c, Repeat(start, Missing(c, f), k), term, f, k)
  {
    RunRepeat(c, start, Missing(c, f), k);
    LosesFrom(c, Run(c, start), term, f, k);
  }

  lemma Finds(c: Setup, events: seq<Event>, term: nat, f: string, k: nat)
    requires c.self !in c.peers && f in c.peers && k == c.limit && k >= 1 && RunMisses(c, events, term, f, k)
    ensures RunMisses(c, events + [Heartbeat(c.peers, [])], term, f, 0)
  {
    NextEvent(c, events, Heartbeat(c.peers, []));
    FindsPeer(c, Run(c, events).node, term, f, k);
  }

  lemma LosesTwice(c: Setup, start: seq<Event>, term: nat, f: string)
    requires c.limit >= 1 && c.self !in c.peers && f in c.peers && RunMisses(c, start, term, f, 0)
    ensures RunMisses(c, LoseOnce(c, start, f), term, f, c.limit) && RunMisses(c, LoseTwice(c, start, f), term, f, c.limit)
  {
    var once := LoseOnce(c, start, f);
    Loses(c, start, term, f, c.limit);
    Finds(c, once, term, f, c.limit);
    Loses(c, once + [Heartbeat(c.peers, [])], term, f, c.limit);
  }

  // ----- what the leader sends

  /** What a leader sends at its next heartbeat after the run. */
  ghost predicate SentAfter(c: Setup, events: seq<Event>, h: ClusterHealth) {
    Run(c, events).Up? && Leads(c, Run(c, events).node) && IsMessageOf(c, Run(c, events).node, h)
  }

  /** A check whose ring and list are without the node it is sent to. */
  ghost predicate Omits(c: Setup, term: nat, check: ClusterHealth) {
    && check.term == term && c.self !in check.nodes
    && check.signature == RingOf(c.build, c.peers) != RingOf(c.build, {c.self} + c.peers)
  }

  /** Two nodes of one cluster. */
  ghost predicate SameCluster(a: Setup, b: Setup) {
    a.self != b.self && a.self !in a.peers && b.self !in b.peers && {a.self} + a.peers == {b.self} + b.peers && a.build == b.build
  }

  lemma CheckAfterLoss(leader: Setup, events: seq<Event>, term: nat, c: Setup, check: ClusterHealth, k: nat)
    requires SameCluster(leader, c) && OrderFree(c.build) && Grows(c.build)
    requires k >= leader.limit && RunMisses(leader, events, term, c.self, k) && SentAfter(leader, events, check)
    ensures Omits(c, term, check)
  {
    assert {leader.self} + leader.peers - {c.self} == c.peers == {c.self} + c.peers - {c.self};
    SmallerRing(c.build, {c.self} + c.peers, c.self);
    assert c.self in check.nodes <==> c.self in Elements(check.nodes);
  }

  // ----- the peer

  lemma SecondCheckCrashes(c: Setup, n: Node, term: nat, first: ClusterHealth, second: ClusterHealth)
    requires n.core.term <= term && n.ring == RingOf(c.build, {c.self} + c.peers)
    requires Omits(c, term, first) && Omits(c, term, second)
    ensures Step(c, Step(c, Up(n), HealthChecked(first)), HealthChecked(second)) == Crashed
  {
    if !n.rehashSkipped {
      var skipped := AfterHealth(c, n, first);
      assert Step(c, Up(n), HealthChecked(first)) == Up(skipped);
      assert CrashesOn(c, skipped, second);
    }
  }

  lemma TwoMoreEvents(c: Setup, events: seq<Event>, a: Event, b: Event, n: Node)
    requires Run(c, events) == Up(n)
    ensures Run(c, events + [a] + [b]) == Step(c, Step(c, Up(n), a), b)
  {
    NextEvent(c, events, a);
    NextEvent(c, events + [a], b);
  }

  /**
   A peer that is lost twice crashes when it is found for the second time, if not before. The first check
   that reaches it again omits it and is skipped; nothing takes the skip back; the check after the second
   loss omits it as well. This holds for every failure limit, in every term, after whatever made the
   leader that has reached all its peers, and after whatever left the peer on the ring of all nodes.
   */
  lemma FlappingCrashes(leader: Setup, start: seq<Event>, term: nat, c: Setup, events: seq<Event>,
                        first: ClusterHealth, second: ClusterHealth)
    requires SameCluster(leader, c) && leader.limit >= 1 && OrderFree(c.build) && Grows(c.build)
    requires RunMisses(leader, start, term, c.self, 0)
    requires SentAfter(leader, LoseOnce(leader, start, c.self), first) && SentAfter(leader, LoseTwice(leader, start, c.self), second)
    requires Run(c, events).Up? && Run(c, events).node.core.term <= term
    requires Run(c, events).node.ring == RingOf(c.build, {c.self} + c.peers)
    ensures Run(c, events + [HealthChecked(first)] + [HealthChecked(second)]) == Crashed
  {
    var n := Run(c, events).node;
    ChecksOmit(leader, start, term, c, first, second);
    TwoMoreEvents(c, events, HealthChecked(first), HealthChecked(second), n);
    SecondCheckCrashes(c, n, term, first, second);
  }

  lemma ChecksOmit(leader: Setup, start: seq<Event>, term: nat, c: Setup, first: ClusterHealth, second: ClusterHealth)
    requires SameCluster(leader, c) && leader.limit >= 1 && OrderFree(c.build) && Grows(c.build)
    requires RunMisses(leader, start, term, c.self, 0)
    requires SentAfter(leader, LoseOnce(leader, start, c.self), first) && SentAfter(leader, LoseTwice(leader, start, c.self), second)
    ensures Omits(c, term, first) && Omits(c, term, second)
  {
    assert c.self in {leader.self} + leader.peers;
    LosesTwice(leader, start, term, c.self);
    CheckAfterLoss(leader, LoseOnce(leader, start, c.self), term, c, first, leader.limit);
    CheckAfterLoss(leader, LoseTwice(leader, start, c.self), term, c, second, leader.limit);
  }

  // ----- a run that makes a leader

  /** A reply in favour from every peer. */
  function AllInFavour(n: nat): seq<VoteEvent> {
    seq(n, _ => Reply(true, 1))
  }

  lemma {:induction false} AllInFavourElects(term: nat, self: string, total: nat, k: nat)
    requires 0 < total && k < total
    ensures Counting(term, self, total, AllInFavour(total - 1), k, k, k + 1) == LeaderElection.Node(term, self, LeaderElection.Idle)
    decreases total - k
  {
    var votes := AllInFavour(total - 1);
    if k + 1 >= Majority(total) || k + 1 >= total {
      CountDone(term, self, total, votes, k, k, k + 1);
    } else {
      CountNext(term, self, total, votes, k, k, k + 1);
      AllInFavourElects(term, self, total, k + 1);
    }
  }

  lemma EverybodyElects(c: Setup, core: LeaderElection.Node)
    requires core.term == 0
    ensures var total := |c.peers| + 1;
      Elect(LeaderElection.Begin(core, c.self, total), c.self, total, AllInFavour(|c.peers|)) ==
      LeaderElection.Node(1, c.self, LeaderElection.Idle)
  {
    var votes := AllInFavour(|c.peers|);
    assert votes[0..] == votes;
    AllInFavourElects(1, c.self, |c.peers| + 1, 0);
  }

  /** A heartbeat in which nothing is heard of a leader. */
  const SILENCE := Heartbeat({}, [])

  lemma SilentStep(c: Setup, n: Node)
    requires !Leads(c, n) && n.missed + 1 < c.voteTimeout
    ensures Stepper(c, SILENCE)(Up(n)) == Up(n.(missed := n.missed + 1))
  {
  }

  ghost predicate HasWaited(c: Setup, l: Life, n: nat) {
    l == Up(InitialNode(c).(missed := n))
  }

  lemma SilentRun(c: Setup, start: seq<Event>, n: nat)
    requires c.self != LeaderElection.NO_LEADER && (n == 0 || n < c.voteTimeout) && start == []
    ensures HasWaited(c, Run(c, Repeat(start, SILENCE, n)), n)
  {
    ghost var holds := (x: Life, i: nat) => HasWaited(c, x, i);
    forall x, i: nat | i < n && holds(x, i) ensures holds(Stepper(c, SILENCE)(x), i + 1) {
      SilentStep(c, x.node);
    }
    RunRepeat(c, start, SILENCE, n);
    IterateKeeps(Stepper(c, SILENCE), holds, Run(c, start), n);
  }

  lemma ElectedAfterSilence(c: Setup, n: Node, f: string)
    requires c.limit >= 1 && n == InitialNode(c).(missed := n.missed) && c.self != LeaderElection.NO_LEADER
    requires n.missed + 1 >= c.voteTimeout
    ensures MissesPeer(c, AfterHeartbeat(c, n, {}, AllInFavour(|c.peers|)), 1, f, 0)
  {
    EverybodyElects(c, n.core);
  }

  /** A run that makes a node the leader of term 1, whatever its patience. */
  lemma ElectingRun(c: Setup, f: string) returns (start: seq<Event>)
    requires c.limit >= 1 && c.self != LeaderElection.NO_LEADER
    ensures RunMisses(c, start, 1, f, 0)
  {
    var n: nat := if c.voteTimeout > 1 then c.voteTimeout - 1 else 0;
    var elect := Heartbeat({}, AllInFavour(|c.peers|));
    var waiting := Repeat([], SILENCE, n);
    SilentRun(c, [], n);
    NextEvent(c, waiting, elect);
    ElectedAfterSilence(c, InitialNode(c).(missed := n), f);
    start := waiting + [elect];
  }

  lemma VoterIsUp(c: Setup)
    ensures var l := Run(c, [VoteRequested(1)]);
      l.Up? && l.node.core.term == 1 && l.node.ring == RingOf(c.build, {c.self} + c.peers)
  {
    var none: seq<Event> := [];
    NextEvent(c, none, VoteRequested(1));
    assert none + [VoteRequested(1)] == [VoteRequested(1)];
  }

  lemma ACheck(leader: Setup, events: seq<Event>, term: nat, f: string, k: nat) returns (check: ClusterHealth)
    requires RunMisses(leader, events, term, f, k)
    ensures SentAfter(leader, events, check)
  {
    var n := Run(leader, events).node;
    check := ClusterHealth(leader.self, term, n.ring, ListOf(n.detector.active));
  }

  /** With the consistent hash: a leader's run and its two checks that end in such a crash. */
  lemma CrashWitness(leader: Setup, c: Setup, h: RingHash.Hashing)
    returns (start: seq<Event>, first: ClusterHealth, second: ClusterHealth)
    requires SameCluster(leader, c) && leader.limit >= 1 && leader.self != LeaderElection.NO_LEADER
    requires c.build == Builder(h) && h.replicas > 0
    ensures SentAfter(leader, LoseOnce(leader, start, c.self), first) && SentAfter(leader, LoseTwice(leader, start, c.self), second)
    ensures Run(c, [VoteRequested(1)] + [HealthChecked(first)] + [HealthChecked(second)]) == Crashed
  {
    HashBuilds(h);
    start := ElectingRun(leader, c.self);
    assert c.self in {leader.self} + leader.peers;
    LosesTwice(leader, start, 1, c.self);
    first := ACheck(leader, LoseOnce(leader, start, c.self), 1, c.self, leader.limit);
    second := ACheck(leader, LoseTwice(leader, start, c.self), 1, c.self, leader.limit);
    VoterIsUp(c);
    FlappingCrashes(leader, start, 1, c, [VoteRequested(1)], first, second);
  }
}
