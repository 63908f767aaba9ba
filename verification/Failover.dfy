/**
 The failover state of one cluster node: its part in leader elections, the failure counters of its
 peers, the set of active nodes and the hash ring, over every run of votes, heartbeats and health checks.

 The (term, leader) part follows the steps of the `LeaderElection` protocol. A ring signature is
 represented by the ring itself: signatures are taken to tell different rings apart.
 */
module Failover {
  import opened Quorum
  import LeaderElection
  import RingHash

  // ----- failure detection, on values

  datatype Detector = Detector(fails: map<string, nat>, active: set<string>)

  function Alive(fails: map<string, nat>, limit: int): set<string> {
    set p | p in fails && fails[p] < limit
  }

  /** The failure counters in a round of health checks that reaches `reached`, when the peers in `done` have been called. */
  function CountedFails(fails: map<string, nat>, reached: set<string>, done: set<string>): map<string, nat> {
    map p | p in fails :: if p !in done then fails[p] else if p in reached then 0 else fails[p] + 1
  }

  /** The counters after the round. */
  function NextFails(fails: map<string, nat>, reached: set<string>): map<string, nat> {
    CountedFails(fails, reached, fails.Keys)
  }

  /** The peer is at the point where the code rebuilds the list of active nodes. */
  predicate CrossesAt(fails: map<string, nat>, limit: int, reached: set<string>, p: string)
    requires p in fails
  {
    if p in reached then fails[p] >= limit else fails[p] + 1 == limit
  }

  predicate Crosses(fails: map<string, nat>, limit: int, reached: set<string>) {
    exists p <- fails :: CrossesAt(fails, limit, reached, p)
  }

  lemma CountedFailsNext(fails: map<string, nat>, reached: set<string>, done: set<string>, node: string)
    requires node in fails && node !in done
    ensures var before := CountedFails(fails, reached, done);
      before[node := if node in reached then 0 else before[node] + 1] == CountedFails(fails, reached, done + {node})
  {
  }

  function Round(d: Detector, self: string, limit: int, reached: set<string>): Detector {
    var fails := NextFails(d.fails, reached);
    Detector(fails, if Crosses(d.fails, limit, reached) then {self} + Alive(fails, limit) else d.active)
  }

  function Rounds(d: Detector, self: string, limit: int, rounds: seq<set<string>>): Detector
    decreases |rounds|
  {
    if rounds == [] then d else Rounds(Round(d, self, limit, rounds[0]), self, limit, rounds[1..])
  }

  function InitialDetector(self: string, peers: set<string>): Detector {
    Detector(map p | p in peers :: 0, {self} + peers)
  }

  /** Active is self and exactly the peers below the failure limit. */
  predicate Exact(d: Detector, self: string, limit: int) {
    d.active == {self} + Alive(d.fails, limit)
  }

  /** Between two crossings the set of live peers does not change, so it need not be rebuilt. */
  lemma NoCrossingNoChange(fails: map<string, nat>, limit: int, reached: set<string>)
    requires limit >= 1
    ensures Crosses(fails, limit, reached) <==> Alive(NextFails(fails, reached), limit) != Alive(fails, limit)
  {
    var next := NextFails(fails, reached);
    if Crosses(fails, limit, reached) {
      var p :| p in fails && CrossesAt(fails, limit, reached, p);
      assert p in Alive(next, limit) <==> p !in Alive(fails, limit);
    } else {
      forall p <- fails ensures p in Alive(next, limit) <==> p in Alive(fails, limit) {
        assert !CrossesAt(fails, limit, reached, p);
      }
    }
  }

  lemma {:induction false} RoundsKeepExact(d: Detector, self: string, limit: int, rounds: seq<set<string>>)
    requires limit >= 1 && Exact(d, self, limit)
    ensures Exact(Rounds(d, self, limit, rounds), self, limit)
    decreases |rounds|
  {
    if rounds != [] {
      NoCrossingNoChange(d.fails, limit, rounds[0]);
      RoundsKeepExact(Round(d, self, limit, rounds[0]), self, limit, rounds[1..]);
    }
  }

  ghost predicate ExactAfter(self: string, peers: set<string>, limit: int, rounds: seq<set<string>>) {
    Exact(Rounds(InitialDetector(self, peers), self, limit, rounds), self, limit)
  }

  /** The active set is exact in every state of every run if and only if the configured limit is positive. */
  lemma DetectionIsExact(self: string, peers: set<string>, limit: int)
    requires self !in peers && peers != {}
    ensures limit >= 1 <==> forall rounds :: ExactAfter(self, peers, limit, rounds)
  {
    var d := InitialDetector(self, peers);
    if limit >= 1 {
      assert Alive(d.fails, limit) == peers;
      forall rounds ensures ExactAfter(self, peers, limit, rounds) {
        RoundsKeepExact(d, self, limit, rounds);
      }
    } else {
      var p :| p in peers;
      assert p in d.active && p !in {self} + Alive(d.fails, limit);
      assert !ExactAfter(self, peers, limit, []);
    }
  }

  predicate Partitioned(total: nat, active: nat) {
    total / 2 >= active
  }

  // ----- lists without duplicates

  ghost predicate NoDuplicates<T>(s: seq<T>) {
    forall i, j | 0 <= i < j < |s| :: s[i] != s[j]
  }

  function Elements<T>(s: seq<T>): set<T> {
    set x | x in s
  }

  ghost predicate Lists<T>(s: seq<T>, all: set<T>) {
    NoDuplicates(s) && Elements(s) == all
  }

  lemma NextElement<T>(s: seq<T>, i: nat)
    requires NoDuplicates(s) && i < |s|
    ensures s[i] in Elements(s) && s[i] !in Elements(s[..i])
    ensures Elements(s[..i + 1]) == Elements(s[..i]) + {s[i]}
  {
    assert s[..i + 1] == s[..i] + [s[i]];
  }

  lemma {:induction false} CountElements<T>(s: seq<T>)
    requires NoDuplicates(s)
    ensures |Elements(s)| == |s|
  {
    if s != [] {
      CountElements(s[1..]);
      assert Elements(s) == {s[0]} + Elements(s[1..]);
    }
  }

  lemma {:induction false} BagOfDistinct<T>(s: seq<T>, x: T)
    requires NoDuplicates(s)
    ensures multiset(s)[x] == if x in s then 1 else 0
  {
    if s != [] {
      assert s == [s[0]] + s[1..];
      BagOfDistinct(s[1..], x);
    }
  }

  lemma DistinctBag<T>(s: seq<T>)
    requires forall x :: multiset(s)[x] <= 1
    ensures NoDuplicates(s)
  {
    forall i, j | 0 <= i < j < |s| ensures s[i] != s[j] {
      assert s == s[..i] + [s[i]] + s[i + 1..j] + [s[j]] + s[j + 1..];
      assert multiset(s)[s[i]] >= multiset([s[i]])[s[i]] + multiset([s[j]])[s[i]];
    }
  }

  // ----- vote counting

  datatype VoteEvent = Reply(granted: bool, term: nat) | CallFailed | TimerFired

  /** An election as the protocol sees it: one protocol step per event until it is decided. */
  ghost function Elect(n: LeaderElection.Node, self: string, total: nat, events: seq<VoteEvent>): LeaderElection.Node
    decreases |events|
  {
    if n.phase.Idle? then n
    else if events == [] then LeaderElection.Expire(n)
    else match events[0]
      case Reply(granted, term) => Elect(LeaderElection.CountReply(n, self, total, granted, term), self, total, events[1..])
      case CallFailed => Elect(LeaderElection.CountError(n, self, total), self, total, events[1..])
      case TimerFired => LeaderElection.Expire(n)
  }

  /** Counting votes: `i` calls are over, `votes` of them in favour, and the events from `k` on are to come. */
  ghost function Counting(term: nat, self: string, total: nat, events: seq<VoteEvent>, k: nat, i: nat, votes: nat): LeaderElection.Node
    requires k <= |events|
  {
    var n := LeaderElection.Node(term, LeaderElection.NO_LEADER, LeaderElection.Electing(i, votes));
    Elect(LeaderElection.Settle(n, self, total), self, total, events[k..])
  }

  /** The loop counters after one event: calls over, votes. */
  function NextCount(event: VoteEvent, term: nat, total: nat, i: nat, votes: nat): (nat, nat)
    requires total > 0
  {
    match event
    case Reply(granted, voterTerm) =>
      if granted then (i + 1, votes + 1) else if term < voterTerm then (total, 0) else (i + 1, votes)
    case CallFailed => (i + 1, votes)
    case TimerFired => (total - 1, votes)
  }

  lemma CountNext(term: nat, self: string, total: nat, events: seq<VoteEvent>, k: nat, i: nat, votes: nat)
    requires i + 1 < total && votes < Majority(total) && k < |events|
    ensures var (j, v) := NextCount(events[k], term, total, i, votes);
      Counting(term, self, total, events, k + 1, j, v) == Counting(term, self, total, events, k, i, votes)
  {
    assert events[k..][0] == events[k] && events[k..][1..] == events[k + 1..];
  }

  lemma CountDone(term: nat, self: string, total: nat, events: seq<VoteEvent>, k: nat, i: nat, votes: nat)
    requires k <= |events| && (k == |events| || i + 1 >= total || votes >= Majority(total))
    ensures Counting(term, self, total, events, k, i, votes) ==
      LeaderElection.Node(term, if votes >= Majority(total) then self else LeaderElection.NO_LEADER, LeaderElection.Idle)
  {
  }

  // ----- a node and its runs

  /** `nodes` lists the nodes the leader takes to be active. */
  datatype ClusterHealth = ClusterHealth(leader: string, term: nat, signature: RingHash.Ring, nodes: seq<string>)

  /** `build` makes a ring of a list of nodes. */
  datatype Setup = Setup(self: string, peers: set<string>, limit: int, voteTimeout: int, build: seq<string> -> RingHash.Ring)

  datatype Node = Node(core: LeaderElection.Node, detector: Detector, ring: RingHash.Ring, missed: int, rehashSkipped: bool)

  datatype Event =
    | VoteRequested(term: nat)
    | Heartbeat(reached: set<string>, votes: seq<VoteEvent>)
    | HealthChecked(health: ClusterHealth)

  /** A node that runs, or the end of its process. */
  datatype Life = Up(node: Node) | Crashed

  ghost function ListOf(s: set<string>): (l: seq<string>)
    ensures Lists(l, s)
    decreases |s|
  {
    if s == {} then []
    else
      var x :| x in s;
      OneMore(ListOf(s - {x}), s - {x}, x);
      ListOf(s - {x}) + [x]
  }

  lemma OneMore(l: seq<string>, s: set<string>, x: string)
    requires Lists(l, s) && x !in s
    ensures Lists(l + [x], s + {x})
    ensures forall t :: x in t && s == t - {x} ==> Lists(l + [x], t)
  {
    forall i | 0 <= i < |l| ensures l[i] != x { assert l[i] in Elements(l); }
    assert Elements(l + [x]) == Elements(l) + {x};
  }

  // ----- rings

  /** The order in which nodes are listed does not matter. */
  ghost predicate OrderFree(build: seq<string> -> RingHash.Ring) {
    forall a, b :: multiset(a) == multiset(b) ==> build(a) == build(b)
  }

  /** One more node makes another ring. */
  ghost predicate Grows(build: seq<string> -> RingHash.Ring) {
    forall a, x :: build(a + [x]) != build(a)
  }

  /** The consistent hash as a builder of rings. */
  function Builder(h: RingHash.Hashing): seq<string> -> RingHash.Ring {
    nodes => RingHash.Build(h, nodes)
  }

  lemma {:induction false} CountPointsOf(h: RingHash.Hashing, node: string, replicas: nat)
    ensures |RingHash.PointsOf(h, node, replicas)| == replicas
  {
    if replicas > 0 { CountPointsOf(h, node, replicas - 1); }
  }

  lemma RingSize(h: RingHash.Hashing, l: seq<string>)
    ensures |RingHash.Build(h, l).points| == |RingHash.Points(h, l)|
  {
    RingHash.BuildIsWellFormed(h, l);
    assert |multiset(RingHash.Build(h, l).points)| == |multiset(RingHash.Points(h, l))|;
  }

  lemma LargerRing(h: RingHash.Hashing, l: seq<string>, x: string)
    requires h.replicas > 0
    ensures RingHash.Build(h, l + [x]) != RingHash.Build(h, l)
  {
    RingSize(h, l);
    RingSize(h, l + [x]);
    RingHash.PointsConcat(h, l, [x]);
    CountPointsOf(h, x, h.replicas);
    assert RingHash.Points(h, [x]) == RingHash.PointsOf(h, x, h.replicas) + RingHash.Points(h, []);
  }

  lemma HashBuilds(h: RingHash.Hashing)
    ensures OrderFree(Builder(h)) && (h.replicas > 0 ==> Grows(Builder(h)))
  {
    forall a, b | multiset(a) == multiset(b) ensures Builder(h)(a) == Builder(h)(b) {
      RingHash.OrderIndependent(h, a, b);
    }
    if h.replicas > 0 {
      forall a, x ensures Builder(h)(a + [x]) != Builder(h)(a) {
        LargerRing(h, a, x);
      }
    }
  }

  /** The ring of a set of nodes. */
  ghost function RingOf(build: seq<string> -> RingHash.Ring, nodes: set<string>): RingHash.Ring {
    build(ListOf(nodes))
  }

  lemma AnyListGivesRing(build: seq<string> -> RingHash.Ring, l: seq<string>, nodes: set<string>)
    requires OrderFree(build) && Lists(l, nodes)
    ensures build(l) == RingOf(build, nodes)
  {
    forall x ensures multiset(l)[x] == multiset(ListOf(nodes))[x] {
      BagOfDistinct(l, x);
      BagOfDistinct(ListOf(nodes), x);
      assert x in l <==> x in Elements(l);
      assert x in ListOf(nodes) <==> x in Elements(ListOf(nodes));
    }
    assert multiset(l) == multiset(ListOf(nodes));
  }

  lemma SmallerRing(build: seq<string> -> RingHash.Ring, nodes: set<string>, x: string)
    requires OrderFree(build) && Grows(build) && x in nodes
    ensures RingOf(build, nodes - {x}) != RingOf(build, nodes)
  {
    var l := ListOf(nodes - {x});
    OneMore(l, nodes - {x}, x);
    assert nodes - {x} + {x} == nodes;
    AnyListGivesRing(build, l + [x], nodes);
  }

  // ----- a node

  ghost function InitialNode(c: Setup): Node {
    Node(LeaderElection.Node(0, LeaderElection.NO_LEADER, LeaderElection.Idle), InitialDetector(c.self, c.peers),
         RingOf(c.build, {c.self} + c.peers), 0, false)
  }

  predicate Leads(c: Setup, n: Node) {
    n.core.leader == c.self
  }

  /** What a leader tells its peers: its term, its ring and the nodes it takes to be active, in any order. */
  ghost predicate IsMessageOf(c: Setup, n: Node, h: ClusterHealth) {
    h.leader == c.self && h.term == n.core.term && h.signature == n.ring && Lists(h.nodes, n.detector.active)
  }

  /** A leader's round of health checks. */
  ghost function AfterRound(c: Setup, n: Node, reached: set<string>): Node {
    var detector := Round(n.detector, c.self, c.limit, reached);
    n.(detector := detector,
       ring := if Crosses(n.detector.fails, c.limit, reached) then RingOf(c.build, detector.active) else n.ring)
  }

  /** Another heartbeat without a health check; the node may run out of patience and stand for election. */
  ghost function AfterSilence(c: Setup, n: Node, votes: seq<VoteEvent>): Node {
    if n.missed + 1 >= c.voteTimeout then
      var total := |c.peers| + 1;
      n.(missed := 0, core := Elect(LeaderElection.Begin(n.core, c.self, total), c.self, total, votes))
    else n.(missed := n.missed + 1)
  }

  ghost function AfterHeartbeat(c: Setup, n: Node, reached: set<string>, votes: seq<VoteEvent>): Node {
    if Leads(c, n) then AfterRound(c, n, reached) else AfterSilence(c, n, votes)
  }

  /** The node takes over the leader's ring. */
  predicate Rehashes(n: Node, h: ClusterHealth) {
    h.term >= n.core.term && h.signature != n.ring && n.rehashSkipped
  }

  /** Collecting the sessions of the nodes that are gone, the node looks itself up among its peers. */
  predicate CrashesOn(c: Setup, n: Node, h: ClusterHealth) {
    Rehashes(n, h) && c.self !in h.nodes
  }

  function AfterHealth(c: Setup, n: Node, h: ClusterHealth): Node {
    if h.term < n.core.term then n
    else
      n.(core := LeaderElection.Hear(n.core, h.leader, h.term), missed := 0,
         ring := if Rehashes(n, h) then c.build(h.nodes) else n.ring,
         rehashSkipped := if h.signature == n.ring then n.rehashSkipped else !n.rehashSkipped)
  }

  ghost function Step(c: Setup, l: Life, e: Event): Life {
    match l
    case Crashed => Crashed
    case Up(n) =>
      match e
      case VoteRequested(term) => Up(n.(core := LeaderElection.Answer(n.core, term)))
      case Heartbeat(reached, votes) => Up(AfterHeartbeat(c, n, reached, votes))
      case HealthChecked(h) => if CrashesOn(c, n, h) then Crashed else Up(AfterHealth(c, n, h))
  }

  ghost function Run(c: Setup, events: seq<Event>): Life {
    if events == [] then Up(InitialNode(c)) else Step(c, Run(c, events[..|events| - 1]), events[|events| - 1])
  }

  lemma NextEvent(c: Setup, events: seq<Event>, e: Event)
    ensures Run(c, events + [e]) == Step(c, Run(c, events), e)
  {
    assert (events + [e])[..|events|] == events;
  }

  // ----- what every run guarantees

  ghost predicate Detects(c: Setup, l: Life) {
    l.Up? ==> Exact(l.node.detector, c.self, c.limit) && l.node.detector.fails.Keys == c.peers
  }

  lemma StepDetects(c: Setup, l: Life, e: Event)
    requires c.limit >= 1 && Detects(c, l)
    ensures Detects(c, Step(c, l, e))
  {
    if l.Up? && e.Heartbeat? {
      NoCrossingNoChange(l.node.detector.fails, c.limit, e.reached);
    }
  }

  lemma {:induction false} RunDetects(c: Setup, events: seq<Event>)
    requires c.limit >= 1
    ensures Detects(c, Run(c, events))
  {
    if events == [] {
      assert Alive(InitialDetector(c.self, c.peers).fails, c.limit) == c.peers;
    } else {
      RunDetects(c, events[..|events| - 1]);
      StepDetects(c, Run(c, events[..|events| - 1]), events[|events| - 1]);
    }
  }

  /**
   In every run of votes, heartbeats and health checks, as leader or follower, the active nodes are self
   and exactly the peers below the failure limit.
   */
  lemma ActiveIsExact(c: Setup, events: seq<Event>)
    requires c.limit >= 1 && Run(c, events).Up?
    ensures var d := Run(c, events).node.detector; d.fails.Keys == c.peers && d.active == {c.self} + Alive(d.fails, c.limit)
  {
    RunDetects(c, events);
  }

  /** A health check omits a peer exactly if the peer has failed up to the limit, also the check that finds it back. */
  lemma CheckOmitsFailed(c: Setup, events: seq<Event>, h: ClusterHealth, peer: string)
    requires c.limit >= 1 && c.self !in c.peers && peer in c.peers
    requires Run(c, events).Up? && IsMessageOf(c, Run(c, events).node, h)
    ensures peer in Run(c, events).node.detector.fails
    ensures peer !in h.nodes <==> Run(c, events).node.detector.fails[peer] >= c.limit
  {
    ActiveIsExact(c, events);
    assert peer in h.nodes <==> peer in Elements(h.nodes);
  }

  ghost predicate IsPartitioned(c: Setup, n: Node) {
    Partitioned(|c.peers| + 1, |n.detector.active|)
  }

  /**
   Two nodes of one cluster that both take themselves to be in the larger part, after any runs: some node
   is active for both, and neither has failed to reach it up to the limit.
   */
  lemma UnpartitionedOverlap(all: set<string>, a: Setup, b: Setup, ea: seq<Event>, eb: seq<Event>) returns (common: string)
    requires a.self in all && b.self in all && a.peers == all - {a.self} && b.peers == all - {b.self}
    requires a.limit >= 1 && b.limit >= 1 && Run(a, ea).Up? && Run(b, eb).Up?
    requires !IsPartitioned(a, Run(a, ea).node) && !IsPartitioned(b, Run(b, eb).node)
    ensures common in all
    ensures Reaches(a, Run(a, ea).node, common) && Reaches(b, Run(b, eb).node, common)
  {
    ActiveIsExact(a, ea);
    ActiveIsExact(b, eb);
    var x, y := Run(a, ea).node.detector, Run(b, eb).node.detector;
    assert |a.peers| + 1 == |all| == |b.peers| + 1;
    assert x.active <= all && y.active <= all;
    common := Overlap(all, x.active, y.active);
  }

  predicate Reaches(c: Setup, n: Node, other: string) {
    other == c.self || (other in n.detector.fails && n.detector.fails[other] < c.limit)
  }

  /** The node did a round of health checks in the run. */
  ghost predicate HasLed(c: Setup, events: seq<Event>) {
    exists k | 0 <= k < |events| ::
      events[k].Heartbeat? && Run(c, events[..k]).Up? && Leads(c, Run(c, events[..k]).node)
  }

  /** A node that has not led goes on believing in every configured node, and never reports a partition. */
  lemma {:induction false} FollowersNoticeNothing(c: Setup, events: seq<Event>)
    requires c.self !in c.peers && Run(c, events).Up? && !HasLed(c, events)
    ensures var n := Run(c, events).node;
      n.detector == InitialDetector(c.self, c.peers) && n.detector.active == {c.self} + c.peers && !IsPartitioned(c, n)
  {
    if events != [] {
      var k := |events| - 1;
      var init := events[..k];
      forall j | 0 <= j < k && init[j].Heartbeat? && Run(c, init[..j]).Up? ensures !Leads(c, Run(c, init[..j]).node) {
        assert init[..j] == events[..j];
      }
      FollowersNoticeNothing(c, init);
      assert events[k].Heartbeat? ==> !Leads(c, Run(c, events[..k]).node);
    }
  }
}
