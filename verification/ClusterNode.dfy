/** The loop of one cluster node: its fields are updated event by event. */
module ClusterNode {
  import opened Quorum
  import opened Failover
  import LeaderElection
  import NodeRuns
  import RingHash
  import SliceDelta

  class FailoverNode {
    const self: string
    const peers: set<string>
    const limit: int
    const voteTimeout: int
    const hashing: RingHash.Hashing
    var term: nat
    var leader: string
    var activeNodes: seq<string>
    var failCount: map<string, nat>
    var ring: RingHash.Ring
    var missed: int
    var rehashSkipped: bool

    ghost predicate Valid()
      reads this
    {
      self !in peers && failCount.Keys == peers && NoDuplicates(activeNodes)
    }

    /** The node as the election protocol knows it. */
    ghost function Core(): LeaderElection.Node
      reads this
    {
      LeaderElection.Node(term, leader, LeaderElection.Idle)
    }

    ghost function Detection(): Detector
      reads this
    {
      Detector(failCount, Elements(activeNodes))
    }

    ghost function Config(): Setup {
      Setup(self, peers, limit, voteTimeout, Builder(hashing))
    }

    ghost function State(): Node
      reads this
    {
      Node(Core(), Detection(), ring, missed, rehashSkipped)
    }

    /** Failover starts on the assumption that every configured node is alive. */
    constructor (self: string, peers: set<string>, order: seq<string>, limit: int, voteTimeout: int, hashing: RingHash.Hashing)
      requires self !in peers && Lists(order, peers)
      ensures Valid() && Core() == LeaderElection.Node(0, LeaderElection.NO_LEADER, LeaderElection.Idle)
      ensures Detection() == InitialDetector(self, peers)
      ensures ring == RingHash.Build(hashing, activeNodes)
      ensures this.self == self && this.peers == peers && this.limit == limit && this.hashing == hashing
      ensures State() == InitialNode(Config()) && Config() == Setup(self, peers, limit, voteTimeout, Builder(hashing))
    {
      this.self, this.peers, this.limit, this.voteTimeout, this.hashing := self, peers, limit, voteTimeout, hashing;
      term, leader := 0, LeaderElection.NO_LEADER;
      activeNodes := order + [self];
      failCount := map p | p in peers :: 0;
      ring := RingHash.Build(hashing, order + [self]);
      missed, rehashSkipped := 0, false;
      new;
      OneMore(order, peers, self);
      assert peers + {self} == {self} + peers;
      HashBuilds(hashing);
      AnyListGivesRing(Builder(hashing), order + [self], {self} + peers);
    }

    /** Answer to a candidate. */
    method HandleVoteRequest(requestTerm: nat) returns (granted: bool, voterTerm: nat)
      modifies this`term, this`leader
      ensures Core() == LeaderElection.Answer(old(Core()), requestTerm)
      ensures granted <==> requestTerm > old(term)
      ensures granted ==> term == requestTerm && leader == LeaderElection.NO_LEADER
      ensures !granted ==> term == old(term) && leader == old(leader)
      ensures voterTerm == term
      ensures Step(Config(), Up(old(State())), VoteRequested(requestTerm)) == Up(State())
    {
      if term < requestTerm {
        term := requestTerm;
        leader := "";
        granted := true;
      } else {
        granted := false;
      }
      voterTerm := term;
    }

    /**
     Lead an election. `events` are the outcomes of the vote calls in the order in which they come in;
     when they run out the timer fires.
     */
    method ElectLeader(events: seq<VoteEvent>)
      modifies this`term, this`leader
      ensures var total := |peers| + 1;
        Core() == Elect(LeaderElection.Begin(old(Core()), self, total), self, total, events)
      ensures term == old(term) + 1
      ensures leader == if NodeRuns.Wins(events, term, |peers| + 1) then self else LeaderElection.NO_LEADER
    {
      NodeRuns.ElectedExactly(Core(), self, |peers| + 1, events);
      term := term + 1;
      leader := "";
      var nodeCount := |peers|;
      var expectVotes := (nodeCount + 1) / 2 + 1;
      var voteCount := CountVotes(nodeCount, expectVotes, events);
      if voteCount >= expectVotes {
        leader := self;
      }
    }

    /** Count replies until a majority is reached, every call is over or the timer fires. */
    method CountVotes(nodeCount: nat, expectVotes: nat, events: seq<VoteEvent>) returns (voteCount: nat)
      requires expectVotes == Majority(nodeCount + 1)
      ensures Counting(term, self, nodeCount + 1, events, 0, 0, 1) ==
        LeaderElection.Node(term, if voteCount >= expectVotes then self else LeaderElection.NO_LEADER, LeaderElection.Idle)
    {
      var i, k := 0, 0;
      voteCount := 1;
      while i < nodeCount && voteCount < expectVotes && k < |events|
        invariant 0 <= k <= |events| && 0 <= i
        invariant Counting(term, self, nodeCount + 1, events, k, i, voteCount) == Counting(term, self, nodeCount + 1, events, 0, 0, 1)
      {
        CountNext(term, self, nodeCount + 1, events, k, i, voteCount);
        match events[k] {
          case Reply(granted, voterTerm) =>
            if granted {
              voteCount := voteCount + 1;
            } else if term < voterTerm {
              i := nodeCount;
              voteCount := 0;
            }
            i := i + 1;
          case CallFailed => i := i + 1;
          case TimerFired => i := nodeCount;
        }
        k := k + 1;
      }
      CountDone(term, self, nodeCount + 1, events, k, i, voteCount);
    }

    /** Call every peer once, in the given order, with the same message, and count the failures. */
    method ProbePeers(order: seq<string>, reached: set<string>) returns (called: set<string>, rehash: bool)
      requires Valid() && Lists(order, peers)
      modifies this`failCount
      ensures failCount == NextFails(old(failCount), reached)
      ensures rehash <==> Crosses(old(failCount), limit, reached)
      ensures called == peers
    {
      rehash, called := false, {};
      ghost var was := failCount;
      for i := 0 to |order|
        invariant called == Elements(order[..i]) <= peers
        invariant failCount == CountedFails(was, reached, called)
        invariant rehash <==> exists p <- called :: CrossesAt(was, limit, reached, p)
      {
        var node := order[i];
        NextElement(order, i);
        CountedFailsNext(was, reached, called, node);
        if node !in reached {
          failCount := failCount[node := failCount[node] + 1];
          if failCount[node] == limit {
            rehash := true;
          }
        } else {
          if failCount[node] >= limit {
            rehash := true;
          }
          failCount := failCount[node := 0];
        }
        called := called + {node};
      }
      assert order[..|order|] == order;
    }

    /**
     One round of health checks by the leader. `order` and `order'` are the orders in which the peer
     map is iterated; `reached` are the peers whose call succeeds.
     */
    method SendHealthChecks(order: seq<string>, order': seq<string>, reached: set<string>)
      returns (message: ClusterHealth, called: set<string>, rehashed: bool, collected: seq<string>)
      requires Valid() && Lists(order, peers) && Lists(order', peers)
      modifies this`failCount, this`activeNodes, this`ring
      ensures Valid()
      ensures Detection() == Round(old(Detection()), self, limit, reached)
      ensures rehashed <==> Crosses(old(failCount), limit, reached)
      ensures rehashed ==> ring == RingHash.Build(hashing, activeNodes) == RingOf(Builder(hashing), Elements(activeNodes))
      ensures rehashed ==> forall x :: x in collected <==> x in peers && x !in activeNodes
      ensures !rehashed ==> activeNodes == old(activeNodes) && ring == old(ring) && collected == []
      ensures called == peers && message == ClusterHealth(self, term, old(ring), old(activeNodes))
      ensures IsMessageOf(Config(), old(State()), message)
      ensures State() == AfterRound(Config(), old(State()), reached)
    {
      collected := [];
      ghost var was := State();
      message := ClusterHealth(self, term, ring, activeNodes);
      called, rehashed := ProbePeers(order, reached);
      if rehashed {
        var crashed;
        crashed, collected := Rebuild(order, order');
      }
      IsAfterRound(Config(), was, reached, State());
    }

    /** What a round leaves of a node. */
    static lemma IsAfterRound(c: Setup, n: Node, reached: set<string>, m: Node)
      requires m == n.(detector := m.detector, ring := m.ring) && m.detector.fails == NextFails(n.detector.fails, reached)
      requires if Crosses(n.detector.fails, c.limit, reached)
        then m.detector.active == {c.self} + Alive(m.detector.fails, c.limit) && m.ring == RingOf(c.build, m.detector.active)
        else m.detector.active == n.detector.active && m.ring == n.ring
      ensures m == AfterRound(c, n, reached) && m.detector == Round(n.detector, c.self, c.limit, reached)
    {
    }

    /**
     Recompute the active nodes and the ring, and drop the sessions of the nodes that are gone. The list
     contains this node, so the collection does not crash.
     */
    method Rebuild(order: seq<string>, order': seq<string>) returns (crashed: bool, collected: seq<string>)
      requires Valid() && Lists(order, peers) && Lists(order', peers)
      modifies this`activeNodes, this`ring
      ensures Lists(activeNodes, {self} + Alive(failCount, limit)) && ring == RingHash.Build(hashing, activeNodes)
      ensures ring == RingOf(Builder(hashing), Elements(activeNodes))
      ensures !crashed && forall x :: x in collected <==> x in peers && x !in activeNodes
    {
      var active := CollectActive(order');
      ring := RingHash.Build(hashing, active);
      assert self in Elements(active);
      crashed, collected, activeNodes := GcProxySessions(order, active);
      SortedRing(active, activeNodes, {self} + Alive(failCount, limit));
    }

    lemma SortedRing(a: seq<string>, b: seq<string>, nodes: set<string>)
      requires Lists(a, nodes) && multiset(a) == multiset(b)
      ensures Lists(b, nodes) && (forall x :: x in a <==> x in b)
      ensures RingHash.Build(hashing, a) == RingHash.Build(hashing, b) == RingOf(Builder(hashing), nodes)
    {
      SameRing(a, b);
      HashBuilds(hashing);
      AnyListGivesRing(Builder(hashing), b, nodes);
      forall x ensures x in a <==> x in b { assert x in multiset(a) <==> x in multiset(b); }
    }

    lemma SameRing(a: seq<string>, b: seq<string>)
      requires multiset(a) == multiset(b)
      ensures RingHash.Build(hashing, a) == RingHash.Build(hashing, b)
      ensures Elements(a) == Elements(b) && (NoDuplicates(a) ==> NoDuplicates(b))
    {
      RingHash.OrderIndependent(hashing, a, b);
      forall x ensures x in a <==> x in b { assert x in multiset(a) <==> x in multiset(b); }
      if NoDuplicates(a) {
        forall x ensures multiset(b)[x] <= 1 { BagOfDistinct(a, x); }
        DistinctBag(b);
      }
    }

    /** Self and the peers below the failure limit. */
    method CollectActive(order: seq<string>) returns (active: seq<string>)
      requires Valid() && Lists(order, peers)
      ensures Lists(active, {self} + Alive(failCount, limit))
    {
      active := [self];
      for i := 0 to |order|
        invariant Lists(active, {self} + set p | p in order[..i] && p in failCount && failCount[p] < limit)
      {
        assert order[..i + 1] == order[..i] + [order[i]];
        assert order[i] in Elements(order) && order[i] !in order[..i];
        if failCount[order[i]] < limit {
          assert order[i] !in Elements(active);
          assert Elements(active + [order[i]]) == Elements(active) + {order[i]};
          active := active + [order[i]];
        }
      }
      assert order[..|order|] == order;
      assert forall p :: p in order <==> p in Elements(order);
    }

    /** The configured nodes, this one included, that are missing from `active`, which is sorted on the way. */
    method FailedNodes(order: seq<string>, active: seq<string>) returns (failed: seq<string>, sorted: seq<string>)
      requires self !in peers && Lists(order, peers)
      ensures multiset(sorted) == multiset(active)
      ensures NoDuplicates(failed) && forall x :: x in failed <==> x in {self} + peers && x !in active
    {
      var allNodes := [self] + order;
      SelfFirst(order);
      var all := new string[|allNodes|](i requires 0 <= i < |allNodes| => allNodes[i]);
      var act := new string[|active|](i requires 0 <= i < |active| => active[i]);
      assert all[..] == allNodes && act[..] == active;
      var _, f, _ := SliceDelta.StringSliceDelta(all, act);
      failed, sorted := f, act[..];
      MissingNodes(allNodes, active, failed);
    }

    lemma SelfFirst(order: seq<string>)
      requires self !in peers && Lists(order, peers)
      ensures Lists([self] + order, {self} + peers)
    {
      forall i | 0 <= i < |order| ensures order[i] != self { assert order[i] in Elements(order); }
      assert Elements([self] + order) == {self} + Elements(order);
    }

    /** The difference of a list without duplicates and another list. */
    static lemma MissingNodes(all: seq<string>, active: seq<string>, failed: seq<string>)
      requires NoDuplicates(all) && multiset(failed) == multiset(all) - multiset(active)
      ensures NoDuplicates(failed) && forall x :: x in failed <==> x in Elements(all) && x !in active
    {
      forall x
        ensures multiset(failed)[x] <= 1
        ensures x in failed <==> x in Elements(all) && x !in active
      {
        BagOfDistinct(all, x);
        assert x in active <==> x in multiset(active);
        assert x in failed <==> x in multiset(failed);
        assert multiset(failed)[x] == (multiset(all) - multiset(active))[x];
      }
      DistinctBag(failed);
    }

    /**
     Drop the proxy sessions of the nodes missing from `active`. A node is looked up among the peers, and
     this node is not there: if it is missing itself the process crashes. The list is sorted in place,
     which the caller sees as `sorted`.
     */
    method GcProxySessions(order: seq<string>, active: seq<string>)
      returns (crashed: bool, collected: seq<string>, sorted: seq<string>)
      requires self !in peers && Lists(order, peers)
      ensures crashed <==> self !in active
      ensures multiset(sorted) == multiset(active)
      ensures NoDuplicates(collected) && forall x | x in collected :: x in peers && x !in active
      ensures !crashed ==> forall x | x in peers && x !in active :: x in collected
    {
      var failed;
      failed, sorted := FailedNodes(order, active);
      crashed, collected := false, [];
      for i := 0 to |failed|
        invariant collected == failed[..i] && forall x | x in collected :: x in peers
      {
        if failed[i] !in peers {
          assert failed[i] in failed;
          return true, collected, sorted;
        }
        collected := collected + [failed[i]];
      }
      assert failed[..|failed|] == failed;
    }

    /**
     A health check from a leader; `order` is the order in which the peer map is iterated. A node that
     takes over a ring from a list it is not on crashes while it collects sessions.
     */
    method HandleHealth(health: ClusterHealth, order: seq<string>)
      returns (crashed: bool, rehashed: bool, collected: seq<string>)
      requires Valid() && Lists(order, peers)
      modifies this`term, this`leader, this`missed, this`ring, this`rehashSkipped
      ensures crashed <==> health.term >= old(term) && health.signature != old(ring) && old(rehashSkipped) && self !in health.nodes
      ensures Step(Config(), Up(old(State())), HealthChecked(health)) == if crashed then Crashed else Up(State())
      ensures health.term < old(term) ==> State() == old(State())
      ensures health.term >= old(term) ==> term == health.term && leader == health.leader && missed == 0
      ensures health.term >= old(term) && !crashed ==>
        && ring == (if health.signature != old(ring) && old(rehashSkipped) then RingHash.Build(hashing, health.nodes) else old(ring))
        && rehashSkipped == (old(rehashSkipped) != (health.signature != old(ring)))
      ensures rehashed <==> !crashed && Rehashes(old(State()), health)
      ensures rehashed ==> forall x :: x in collected <==> x in peers && x !in health.nodes
      ensures !rehashed && !crashed ==> collected == []
    {
      if health.term < term {
        return false, false, [];
      }
      AdoptLeader(health);
      crashed, rehashed, collected := AdoptRing(health, order);
    }

    method AdoptLeader(health: ClusterHealth)
      requires health.term >= term
      modifies this`term, this`leader, this`missed
      ensures Core() == LeaderElection.Hear(old(Core()), health.leader, health.term) && missed == 0
    {
      if health.term > term {
        term := health.term;
        leader := health.leader;
      } else if health.leader != leader {
        leader := health.leader;
      }
      missed := 0;
    }

    /** Take over the leader's ring at the second check that disagrees with the ring of this node. */
    method AdoptRing(health: ClusterHealth, order: seq<string>)
      returns (crashed: bool, rehashed: bool, collected: seq<string>)
      requires Valid() && Lists(order, peers)
      modifies this`ring, this`rehashSkipped
      ensures var adopts := health.signature != old(ring) && old(rehashSkipped);
        && crashed == (adopts && self !in health.nodes) && rehashed == (adopts && self in health.nodes)
        && ring == (if adopts then RingHash.Build(hashing, health.nodes) else old(ring))
        && (!crashed ==> rehashSkipped == if health.signature == old(ring) then old(rehashSkipped) else !old(rehashSkipped))
      ensures rehashed ==> forall x :: x in collected <==> x in peers && x !in health.nodes
      ensures !rehashed && !crashed ==> collected == []
    {
      crashed, rehashed, collected := false, false, [];
      if health.signature != ring {
        if rehashSkipped {
          ring := RingHash.Build(hashing, health.nodes);
          var sorted;
          crashed, collected, sorted := GcProxySessions(order, health.nodes);
          if crashed {
            return;
          }
          rehashSkipped := false;
          rehashed := true;
        } else {
          rehashSkipped := true;
        }
      }
    }

    /** The heartbeat: a leader checks the health of its peers, any other node may run out of patience. */
    method Tick(order: seq<string>, order': seq<string>, reached: set<string>, events: seq<VoteEvent>)
      returns (sent: seq<ClusterHealth>)
      requires Valid() && Lists(order, peers) && Lists(order', peers)
      modifies this
      ensures Valid()
      ensures Step(Config(), Up(old(State())), Heartbeat(reached, events)) == Up(State())
      ensures sent == if old(leader) == self then [ClusterHealth(self, term, old(ring), old(activeNodes))] else []
    {
      sent := [];
      if leader == self {
        var message, _, _, _ := SendHealthChecks(order, order', reached);
        sent := [message];
      } else {
        CountSilence(events);
      }
    }

    method CountSilence(events: seq<VoteEvent>)
      modifies this`term, this`leader, this`missed
      ensures State() == AfterSilence(Config(), old(State()), events)
    {
      missed := missed + 1;
      if missed >= voteTimeout {
        missed := 0;
        ElectLeader(events);
      }
    }

    /** The node is in the smaller part of a split cluster. */
    method IsPartitioned() returns (partitioned: bool)
      requires Valid()
      ensures partitioned == Failover.IsPartitioned(Config(), State())
      ensures !partitioned <==> 2 * |Elements(activeNodes)| > |{self} + peers|
    {
      partitioned := (|peers| + 1) / 2 >= |activeNodes|;
      CountElements(activeNodes);
    }
  }
}
