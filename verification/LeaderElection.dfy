/**
 Leader election among the nodes of a cluster, as a protocol over all of them at once.

 A node is its (term, leader) pair plus the progress of the election it is leading. Vote requests,
 vote replies and health checks are in flight as sets of messages; they may be delivered in any
 order, at any time, or be dropped. The `ballots` and `counted` components are history: every vote
 ever given, and the voters whose replies the current election of a node has counted.
 */
module LeaderElection {
  import opened Quorum

  /** The name that stands for "no leader". */
  const NO_LEADER := ""

  /** `Electing(received, votes)` are the loop counters of an election under way. */
  datatype Phase = Idle | Electing(received: nat, votes: nat)

  datatype Node = Node(term: nat, leader: string, phase: Phase)

  datatype VoteRequest = VoteRequest(candidate: string, voter: string, term: nat)

  /** `term` is the term that was asked for, `voterTerm` the term of the voter after the vote. */
  datatype VoteReply = VoteReply(candidate: string, voter: string, term: nat, granted: bool, voterTerm: nat)

  datatype HealthCheck = HealthCheck(leader: string, to: string, term: nat)

  datatype Ballot = Ballot(voter: string, term: nat, candidate: string)

  datatype System = System(
    nodes: map<string, Node>,
    requests: set<VoteRequest>,
    replies: set<VoteReply>,
    health: set<HealthCheck>,
    ballots: set<Ballot>,
    counted: map<string, set<string>>)

  // ----- what a single node does with one event

  /** The end of the vote-counting loop: decide once all nodes replied or a majority is reached. */
  function Settle(n: Node, self: string, total: nat): Node {
    match n.phase
    case Idle => n
    case Electing(received, votes) =>
      if votes >= Majority(total) then n.(leader := self, phase := Idle)
      else if received + 1 >= total then n.(phase := Idle)
      else n
  }

  /** Start an election: next term, no leader, one vote (its own). */
  function Begin(n: Node, self: string, total: nat): Node {
    Settle(Node(n.term + 1, NO_LEADER, Electing(0, 1)), self, total)
  }

  /** Count one reply. A refusal from a later term makes the node give up the election. */
  function CountReply(n: Node, self: string, total: nat, granted: bool, voterTerm: nat): Node
    requires n.phase.Electing?
  {
    if granted then
      Settle(n.(phase := Electing(n.phase.received + 1, n.phase.votes + 1)), self, total)
    else if n.term < voterTerm then
      n.(phase := Idle)
    else
      CountError(n, self, total)
  }

  /** A vote call that failed counts as received and adds no vote. */
  function CountError(n: Node, self: string, total: nat): Node
    requires n.phase.Electing?
  {
    Settle(n.(phase := Electing(n.phase.received + 1, n.phase.votes)), self, total)
  }

  /** The vote timer fired: no further replies are awaited. */
  function Expire(n: Node): Node
    requires n.phase.Electing?
  {
    n.(phase := Idle)
  }

  predicate Grants(n: Node, term: nat) {
    n.term < term
  }

  /** The node after it answered a vote request for `term`. */
  function Answer(n: Node, term: nat): Node {
    if Grants(n, term) then n.(term := term, leader := NO_LEADER) else n
  }

  /** The node after a health check. */
  function Hear(n: Node, leader: string, term: nat): Node {
    if term < n.term then n
    else n.(term := term, leader := leader)
  }

  // ----- the protocol

  datatype Action =
    | StartElection(node: string)
    | DeliverRequest(request: VoteRequest)
    | DropRequest(request: VoteRequest)
    | DeliverReply(reply: VoteReply)
    | DropReply(reply: VoteReply)
    | FailCall(node: string)
    | ElectionTimeout(node: string)
    | SendHealth(node: string)
    | DeliverHealth(check: HealthCheck)
    | DropHealth(check: HealthCheck)

  predicate IsIdle(s: System, node: string) {
    node in s.nodes && s.nodes[node].phase.Idle?
  }

  predicate IsElecting(s: System, node: string) {
    node in s.nodes && s.nodes[node].phase.Electing?
  }

  /** An election blocks the node's loop, so requests and health checks wait until it is over. */
  predicate Enabled(s: System, a: Action) {
    match a
    case StartElection(n) => IsIdle(s, n) && s.nodes[n].leader != n
    case DeliverRequest(q) => q in s.requests && IsIdle(s, q.voter)
    case DropRequest(q) => true
    case DeliverReply(r) =>
      r in s.replies && IsElecting(s, r.candidate) && s.nodes[r.candidate].term == r.term
    case DropReply(r) => true
    case FailCall(n) => IsElecting(s, n)
    case ElectionTimeout(n) => IsElecting(s, n)
    case SendHealth(n) => IsIdle(s, n) && s.nodes[n].leader == n
    case DeliverHealth(h) => h in s.health && IsIdle(s, h.to)
    case DropHealth(h) => true
  }

  function Apply(s: System, a: Action): System
    requires Enabled(s, a)
  {
    var total := |s.nodes|;
    match a
    case StartElection(n) =>
      var node := Begin(s.nodes[n], n, total);
      s.(nodes := s.nodes[n := node],
         requests := s.requests + set v | v in s.nodes && v != n :: VoteRequest(n, v, node.term),
         ballots := s.ballots + {Ballot(n, node.term, n)},
         counted := s.counted[n := {n}])
    case DeliverRequest(q) =>
      var voter := s.nodes[q.voter];
      var granted := Grants(voter, q.term);
      var voter' := Answer(voter, q.term);
      s.(nodes := s.nodes[q.voter := voter'],
         requests := s.requests - {q},
         replies := s.replies + {VoteReply(q.candidate, q.voter, q.term, granted, voter'.term)},
         ballots := if granted then s.ballots + {Ballot(q.voter, q.term, q.candidate)} else s.ballots)
    case DropRequest(q) => s.(requests := s.requests - {q})
    case DeliverReply(r) =>
      var n := r.candidate;
      s.(nodes := s.nodes[n := CountReply(s.nodes[n], n, total, r.granted, r.voterTerm)],
         replies := s.replies - {r},
         counted := if r.granted && n in s.counted then s.counted[n := s.counted[n] + {r.voter}] else s.counted)
    case DropReply(r) => s.(replies := s.replies - {r})
    case FailCall(n) => s.(nodes := s.nodes[n := CountError(s.nodes[n], n, total)])
    case ElectionTimeout(n) => s.(nodes := s.nodes[n := Expire(s.nodes[n])])
    case SendHealth(n) =>
      s.(health := s.health + set v | v in s.nodes && v != n :: HealthCheck(n, v, s.nodes[n].term))
    case DeliverHealth(h) =>
      s.(nodes := s.nodes[h.to := Hear(s.nodes[h.to], h.leader, h.term)], health := s.health - {h})
    case DropHealth(h) => s.(health := s.health - {h})
  }

  /** An action that is not possible in a state leaves the state as it is. */
  function Step(s: System, a: Action): System {
    if Enabled(s, a) then Apply(s, a) else s
  }

  function Run(s: System, actions: seq<Action>): System
    decreases |actions|
  {
    if actions == [] then s else Run(Step(s, actions[0]), actions[1..])
  }

  /** All nodes start in term zero, without a leader and without messages. */
  function Initial(names: set<string>): System {
    System(map n | n in names :: Node(0, NO_LEADER, Idle), {}, {}, {}, {}, map[])
  }

  // ----- the invariant

  /** Who voted for `candidate` in `term`. */
  function Voters(s: System, term: nat, candidate: string): set<string> {
    set v | v in s.nodes && Ballot(v, term, candidate) in s.ballots
  }

  /** The candidate has the votes of a majority of the configured nodes. */
  predicate Won(s: System, term: nat, candidate: string) {
    |Voters(s, term, candidate)| >= Majority(|s.nodes|)
  }

  ghost predicate OneVotePerTerm(s: System) {
    && (forall b <- s.ballots :: b.voter in s.nodes && b.term <= s.nodes[b.voter].term)
    && (forall b <- s.ballots, c <- s.ballots :: b.voter == c.voter && b.term == c.term ==> b.candidate == c.candidate)
  }

  ghost predicate RepliesAreBallots(s: System) {
    forall r <- s.replies :: r.granted ==>
      Ballot(r.voter, r.term, r.candidate) in s.ballots && r.voterTerm == r.term
  }

  /** The vote counter of an election is the number of distinct ballots already counted. */
  ghost predicate HonestCount(s: System, n: string)
    requires n in s.nodes
  {
    s.nodes[n].phase.Electing? ==>
      && n in s.counted
      && |s.counted[n]| == s.nodes[n].phase.votes
      && s.counted[n] <= Voters(s, s.nodes[n].term, n)
      && s.nodes[n].leader == NO_LEADER
      && (forall r <- s.replies :: r.granted && r.candidate == n && r.term == s.nodes[n].term ==> r.voter !in s.counted[n])
  }

  ghost predicate CountsAreHonest(s: System) {
    forall n <- s.nodes :: HonestCount(s, n)
  }

  ghost predicate LeadersWon(s: System) {
    && (forall n <- s.nodes :: s.nodes[n].leader != NO_LEADER ==> Won(s, s.nodes[n].term, s.nodes[n].leader))
    && (forall h <- s.health :: h.leader != NO_LEADER && Won(s, h.term, h.leader))
  }

  ghost predicate Invariant(s: System) {
    NO_LEADER !in s.nodes && OneVotePerTerm(s) && RepliesAreBallots(s) && CountsAreHonest(s) && LeadersWon(s)
  }

  /** Votes are never taken back, so a won election stays won. */
  lemma WinsCarryOver(s: System, s': System)
    requires s'.nodes.Keys == s.nodes.Keys && s.ballots <= s'.ballots
    ensures forall term, candidate :: Won(s, term, candidate) ==> Won(s', term, candidate)
  {
    assert |s.nodes| == |s.nodes.Keys| == |s'.nodes.Keys| == |s'.nodes|;
    forall term, candidate | Won(s, term, candidate)
      ensures Won(s', term, candidate)
    {
      SubsetSize(Voters(s, term, candidate), Voters(s', term, candidate));
    }
  }

  /** Quorums meet, and the common voter voted once. */
  lemma AtMostOneWinner(s: System, term: nat, a: string, b: string)
    requires OneVotePerTerm(s) && Won(s, term, a) && Won(s, term, b)
    ensures a == b
  {
    assert |s.nodes| == |s.nodes.Keys|;
    var v := Overlap(s.nodes.Keys, Voters(s, term, a), Voters(s, term, b));
    assert Ballot(v, term, a) in s.ballots && Ballot(v, term, b) in s.ballots;
  }

  lemma InitialHolds(names: set<string>)
    requires NO_LEADER !in names
    ensures Invariant(Initial(names))
  {
  }

  /** Deciding an election makes a leader only of a node that has a majority of the ballots. */
  lemma SettleKeeps(s: System, n: string, node: Node)
    requires Invariant(s.(nodes := s.nodes[n := node])) && n in s.nodes && node.phase.Electing?
    ensures Invariant(s.(nodes := s.nodes[n := Settle(node, n, |s.nodes|)]))
  {
    var t := s.(nodes := s.nodes[n := node]);
    var t' := s.(nodes := s.nodes[n := Settle(node, n, |s.nodes|)]);
    assert t.nodes.Keys == s.nodes.Keys == t'.nodes.Keys;
    assert |t.nodes| == |s.nodes| by { assert |t.nodes.Keys| == |s.nodes.Keys|; }
    WinsCarryOver(t, t');
    assert forall x <- t'.nodes :: x != n ==> t'.nodes[x] == t.nodes[x] && Voters(t', t.nodes[x].term, x) == Voters(t, t.nodes[x].term, x);
    if node.phase.votes >= Majority(|s.nodes|) {
      SubsetSize(t.counted[n], Voters(t, node.term, n));
      assert Won(t, node.term, n);
    }
  }

  /** New ballots and fewer replies leave the count of every other node honest. */
  lemma CountsGrow(s: System, s': System, except: string)
    requires CountsAreHonest(s) && s'.nodes.Keys == s.nodes.Keys && s.ballots <= s'.ballots
    requires forall x <- s.nodes :: x != except ==> s'.nodes[x] == s.nodes[x]
    requires forall x <- s.counted :: x != except ==> x in s'.counted && s'.counted[x] == s.counted[x]
    requires s'.replies <= s.replies
    ensures forall x <- s'.nodes :: x != except ==> HonestCount(s', x)
  {
    forall x <- s'.nodes | x != except
      ensures HonestCount(s', x)
    {
      assert HonestCount(s, x);
    }
  }

  lemma StartElectionKeeps(s: System, n: string)
    requires Invariant(s) && Enabled(s, StartElection(n))
    ensures Invariant(Apply(s, StartElection(n)))
  {
    var term := s.nodes[n].term + 1;
    var node := Node(term, NO_LEADER, Electing(0, 1));
    var s1 := s.(requests := s.requests + set v | v in s.nodes && v != n :: VoteRequest(n, v, term),
                 ballots := s.ballots + {Ballot(n, term, n)},
                 counted := s.counted[n := {n}]);
    var s2 := s1.(nodes := s.nodes[n := node]);
    OwnVote(s, s2, n);
    SettleKeeps(s1, n, node);
    assert Begin(s.nodes[n], n, |s.nodes|) == Settle(node, n, |s.nodes|);
  }

  /** A node that moves to the next term and votes for itself has not voted in that term before. */
  lemma OwnVote(s: System, s': System, n: string)
    requires Invariant(s) && n in s.nodes
    requires s'.nodes == s.nodes[n := Node(s.nodes[n].term + 1, NO_LEADER, Electing(0, 1))]
    requires s'.ballots == s.ballots + {Ballot(n, s.nodes[n].term + 1, n)} && s'.counted == s.counted[n := {n}]
    requires s'.replies == s.replies && s'.health == s.health
    ensures Invariant(s')
  {
    assert s'.nodes.Keys == s.nodes.Keys;
    WinsCarryOver(s, s');
    CountsGrow(s, s', n);
    assert OneVotePerTerm(s');
    assert HonestCount(s', n) by {
      forall r <- s'.replies | r.granted && r.candidate == n && r.term == s'.nodes[n].term
        ensures r.voter != n
      {
        assert Ballot(r.voter, r.term, n) in s.ballots;
      }
    }
  }

  lemma DeliverRequestKeeps(s: System, q: VoteRequest)
    requires Invariant(s) && Enabled(s, DeliverRequest(q))
    ensures Invariant(Apply(s, DeliverRequest(q)))
  {
    var s' := Apply(s, DeliverRequest(q));
    assert s'.nodes.Keys == s.nodes.Keys;
    WinsCarryOver(s, s');
  }

  /** The system without a reply that is being counted. */
  function TakenReply(s: System, r: VoteReply): System
    requires r.granted ==> r.candidate in s.counted
  {
    s.(replies := s.replies - {r},
       counted := if r.granted then s.counted[r.candidate := s.counted[r.candidate] + {r.voter}] else s.counted)
  }

  lemma DeliverReplyKeeps(s: System, r: VoteReply)
    requires Invariant(s) && Enabled(s, DeliverReply(r))
    ensures Invariant(Apply(s, DeliverReply(r)))
  {
    assert HonestCount(s, r.candidate);
    if r.granted || s.nodes[r.candidate].term >= r.voterTerm {
      CountReplyKeeps(s, r);
    } else {
      AbandonKeeps(TakenReply(s, r), s, r.candidate);
    }
  }

  lemma CountReplyKeeps(s: System, r: VoteReply)
    requires Invariant(s) && Enabled(s, DeliverReply(r)) && HonestCount(s, r.candidate)
    requires r.granted || s.nodes[r.candidate].term >= r.voterTerm
    ensures Invariant(Apply(s, DeliverReply(r)))
  {
    var s1 := TakenReply(s, r);
    CountedReply(s, s1.(nodes := s.nodes[r.candidate := AfterReply(s, r)]), r);
    DeliverReplyIs(s, r);
    SettleKeeps(s1, r.candidate, AfterReply(s, r));
  }

  lemma DeliverReplyIs(s: System, r: VoteReply)
    requires Enabled(s, DeliverReply(r)) && r.candidate in s.counted && (r.granted || s.nodes[r.candidate].term >= r.voterTerm)
    ensures var s1 := TakenReply(s, r);
      Apply(s, DeliverReply(r)) == s1.(nodes := s1.nodes[r.candidate := Settle(AfterReply(s, r), r.candidate, |s1.nodes|)])
  {
  }

  /** The candidate when a reply has been counted, before the election is settled. */
  function AfterReply(s: System, r: VoteReply): Node
    requires Enabled(s, DeliverReply(r))
  {
    var node := s.nodes[r.candidate];
    node.(phase := Electing(node.phase.received + 1, node.phase.votes + if r.granted then 1 else 0))
  }

  lemma AbandonKeeps(s': System, s: System, n: string)
    requires Invariant(s) && n in s.nodes
    requires s'.nodes == s.nodes && s'.ballots == s.ballots && s'.counted == s.counted
    requires s'.replies <= s.replies && s'.health == s.health
    ensures Invariant(s'.(nodes := s.nodes[n := s.nodes[n].(phase := Idle)]))
  {
    var t := s'.(nodes := s.nodes[n := s.nodes[n].(phase := Idle)]);
    assert t.nodes.Keys == s.nodes.Keys;
    WinsCarryOver(s, t);
    CountsGrow(s, t, n);
  }

  /** A granted reply is the ballot of a voter not counted so far; it is taken off the wire. */
  lemma CountedReply(s: System, s': System, r: VoteReply)
    requires Invariant(s) && Enabled(s, DeliverReply(r)) && HonestCount(s, r.candidate)
    requires s'.nodes == s.nodes[r.candidate := AfterReply(s, r)]
    requires s'.ballots == s.ballots && s'.replies == s.replies - {r} && s'.health == s.health
    requires s'.counted == if r.granted then s.counted[r.candidate := s.counted[r.candidate] + {r.voter}] else s.counted
    ensures Invariant(s')
  {
    var n := r.candidate;
    assert s'.nodes.Keys == s.nodes.Keys;
    WinsCarryOver(s, s');
    CountsGrow(s, s', n);
    assert HonestCount(s', n) by {
      assert Voters(s', s.nodes[n].term, n) == Voters(s, s.nodes[n].term, n);
      forall q <- s'.replies | q.granted && q.candidate == n && q.term == s.nodes[n].term
        ensures q.voter !in s'.counted[n]
      {
        assert r.granted && q.voter == r.voter ==> q == r;
      }
    }
  }

  lemma FailCallKeeps(s: System, n: string)
    requires Invariant(s) && Enabled(s, FailCall(n))
    ensures Invariant(Apply(s, FailCall(n)))
  {
    var node := s.nodes[n].(phase := Electing(s.nodes[n].phase.received + 1, s.nodes[n].phase.votes));
    var s2 := s.(nodes := s.nodes[n := node]);
    WinsCarryOver(s, s2);
    CountsGrow(s, s2, n);
    SettleKeeps(s, n, node);
  }

  lemma DeliverHealthKeeps(s: System, h: HealthCheck)
    requires Invariant(s) && Enabled(s, DeliverHealth(h))
    ensures Invariant(Apply(s, DeliverHealth(h)))
  {
    var s' := Apply(s, DeliverHealth(h));
    assert s'.nodes.Keys == s.nodes.Keys;
    WinsCarryOver(s, s');
    CountsGrow(s, s', h.to);
  }

  /** Steps that only send or lose messages. */
  lemma MessagesKeep(s: System, a: Action)
    requires Invariant(s) && Enabled(s, a)
    requires a.DropRequest? || a.DropReply? || a.DropHealth? || a.SendHealth?
    ensures Invariant(Apply(s, a))
  {
    var s' := Apply(s, a);
    WinsCarryOver(s, s');
    CountsGrow(s, s', NO_LEADER);
  }

  lemma StepKeeps(s: System, a: Action)
    requires Invariant(s)
    ensures Invariant(Step(s, a))
  {
    if Enabled(s, a) {
      match a
      case StartElection(n) => StartElectionKeeps(s, n);
      case DeliverRequest(q) => DeliverRequestKeeps(s, q);
      case DeliverReply(r) => DeliverReplyKeeps(s, r);
      case FailCall(n) => FailCallKeeps(s, n);
      case DeliverHealth(h) => DeliverHealthKeeps(s, h);
      case ElectionTimeout(n) => AbandonKeeps(s, s, n);
      case _ => MessagesKeep(s, a);
    }
  }

  lemma {:induction false} RunKeeps(s: System, actions: seq<Action>)
    requires Invariant(s)
    ensures Invariant(Run(s, actions))
    decreases |actions|
  {
    if actions != [] {
      StepKeeps(s, actions[0]);
      RunKeeps(Step(s, actions[0]), actions[1..]);
    }
  }

  // ----- what every run guarantees

  /** In every run at most one node ever collects a majority of the votes of a given term. */
  lemma ElectionSafety(names: set<string>, actions: seq<Action>, term: nat, a: string, b: string)
    requires NO_LEADER !in names
    requires Won(Run(Initial(names), actions), term, a) && Won(Run(Initial(names), actions), term, b)
    ensures a == b
  {
    InitialHolds(names);
    RunKeeps(Initial(names), actions);
    AtMostOneWinner(Run(Initial(names), actions), term, a, b);
  }

  /**
   In every run a known leader is the winner of its node's current term, a health check in flight
   names the winner of its term, and so a health check never contradicts a leader already known.
   */
  lemma LeaderAgreement(names: set<string>, actions: seq<Action>)
    requires NO_LEADER !in names
    ensures var s := Run(Initial(names), actions);
      && (forall n <- s.nodes :: s.nodes[n].leader != NO_LEADER ==> Won(s, s.nodes[n].term, s.nodes[n].leader))
      && (forall h <- s.health :: Won(s, h.term, h.leader))
      && (forall m <- s.nodes, n <- s.nodes :: s.nodes[m].term == s.nodes[n].term ==>
            s.nodes[m].leader == s.nodes[n].leader || s.nodes[m].leader == NO_LEADER || s.nodes[n].leader == NO_LEADER)
      && (forall h <- s.health :: h.to in s.nodes && h.term == s.nodes[h.to].term ==>
            s.nodes[h.to].leader == NO_LEADER || s.nodes[h.to].leader == h.leader)
  {
    var s := Run(Initial(names), actions);
    InitialHolds(names);
    RunKeeps(Initial(names), actions);
    forall term: nat, a, b | Won(s, term, a) && Won(s, term, b)
      ensures a == b
    {
      AtMostOneWinner(s, term, a, b);
    }
  }

  /** Terms never go back, and no node appears or disappears. */
  lemma {:induction false} TermsNeverFall(s: System, actions: seq<Action>, n: string)
    requires n in s.nodes
    ensures var s' := Run(s, actions);
      s'.nodes.Keys == s.nodes.Keys && s.nodes[n].term <= s'.nodes[n].term
    decreases |actions|
  {
    if actions != [] {
      var s1 := Step(s, actions[0]);
      assert s1.nodes.Keys == s.nodes.Keys && s.nodes[n].term <= s1.nodes[n].term;
      TermsNeverFall(s1, actions[1..], n);
    }
  }
}
