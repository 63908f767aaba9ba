/** Elections can succeed: when a vote is given, who wins, and how the winner becomes known. */
module ElectionProgress {
  import opened Quorum
  import opened LeaderElection
  import Failover

  // ----- a vote

  /**
   In every run an idle voter that gets a request gives its vote, moves to the term of the request and forgets its
   leader, whoever that was, if and only if the term is new to it; otherwise it refuses and stays as it was.
   */
  lemma VoteIsGivenExactly(names: set<string>, actions: seq<Action>, q: VoteRequest)
    requires NO_LEADER !in names
    requires var s := Run(Initial(names), actions); q in s.requests && IsIdle(s, q.voter)
    ensures var s := Run(Initial(names), actions);
      var s' := Step(s, DeliverRequest(q));
      var ballot := Ballot(q.voter, q.term, q.candidate);
      && s'.nodes.Keys == s.nodes.Keys && (forall n <- s.nodes :: n != q.voter ==> s'.nodes[n] == s.nodes[n])
      && s'.requests == s.requests - {q} && s'.health == s.health && s'.counted == s.counted
      && if q.term > s.nodes[q.voter].term then
           && ballot !in s.ballots && s'.ballots == s.ballots + {ballot}
           && s'.nodes[q.voter] == Node(q.term, NO_LEADER, Idle)
           && s'.replies == s.replies + {VoteReply(q.candidate, q.voter, q.term, true, q.term)}
         else
           && s'.ballots == s.ballots && s'.nodes[q.voter] == s.nodes[q.voter]
           && s'.replies == s.replies + {VoteReply(q.candidate, q.voter, q.term, false, s.nodes[q.voter].term)}
  {
    InitialHolds(names);
    RunKeeps(Initial(names), actions);
  }

  // ----- an election

  /** The requests of a candidate reach these voters. */
  function AskAll(candidate: string, term: nat, voters: seq<string>): seq<Action> {
    seq(|voters|, i requires 0 <= i < |voters| => DeliverRequest(VoteRequest(candidate, voters[i], term)))
  }

  /** Their votes reach the candidate. */
  function CollectAll(candidate: string, term: nat, voters: seq<string>): seq<Action> {
    seq(|voters|, i requires 0 <= i < |voters| => DeliverReply(VoteReply(candidate, voters[i], term, true, term)))
  }

  lemma {:induction false} RunConcat(s: System, a: seq<Action>, b: seq<Action>)
    ensures Run(s, a + b) == Run(Run(s, a), b)
    decreases |a|
  {
    if a == [] {
      assert a + b == b;
    } else {
      assert (a + b)[1..] == a[1..] + b;
      RunConcat(Step(s, a[0]), a[1..], b);
    }
  }

  /** The candidate when k votes have been counted besides its own. */
  function Counted(candidate: string, term: nat, k: nat, total: nat): Node {
    if k + 1 >= Majority(total) then Node(term, candidate, Idle)
    else if k + 1 >= total then Node(term, NO_LEADER, Idle)
    else Node(term, NO_LEADER, Electing(k, k + 1))
  }

  /** The candidate stands for election and its requests are under way to the voters. */
  ghost predicate Asking(s: System, candidate: string, term: nat, voters: seq<string>) {
    && candidate in s.nodes && s.nodes[candidate] == Counted(candidate, term, 0, |s.nodes|)
    && forall i | 0 <= i < |voters| ::
         && voters[i] != candidate && IsIdle(s, voters[i]) && s.nodes[voters[i]].term < term
         && VoteRequest(candidate, voters[i], term) in s.requests
  }

  /** The voters gave their votes and these are under way. */
  ghost predicate Answering(s: System, candidate: string, term: nat, voters: seq<string>) {
    forall i | 0 <= i < |voters| ::
      && voters[i] in s.nodes && s.nodes[voters[i]] == Node(term, NO_LEADER, Idle)
      && VoteReply(candidate, voters[i], term, true, term) in s.replies
  }

  lemma AskOne(s: System, candidate: string, term: nat, voters: seq<string>, done: seq<string>, s': System)
    requires Failover.NoDuplicates(done + voters) && voters != [] && Asking(s, candidate, term, voters) && Answering(s, candidate, term, done)
    requires s' == Step(s, DeliverRequest(VoteRequest(candidate, voters[0], term)))
    ensures Asking(s', candidate, term, voters[1..]) && Answering(s', candidate, term, done + [voters[0]])
    ensures s'.nodes.Keys == s.nodes.Keys && |s'.nodes| == |s.nodes|
  {
    assert s'.nodes.Keys == s.nodes.Keys;
    assert |s'.nodes| == |s'.nodes.Keys| == |s.nodes.Keys| == |s.nodes|;
    assert (done + voters)[|done|] == voters[0];
    forall i | 0 <= i < |done| ensures done[i] != voters[0] { assert (done + voters)[i] == done[i]; }
    forall i | 0 < i < |voters| ensures voters[i] != voters[0] { assert (done + voters)[|done| + i] == voters[i]; }
  }

  lemma {:induction false} AskedAll(s: System, candidate: string, term: nat, voters: seq<string>, done: seq<string>)
    requires Failover.NoDuplicates(done + voters) && Asking(s, candidate, term, voters) && Answering(s, candidate, term, done)
    ensures var s' := Run(s, AskAll(candidate, term, voters));
      && s'.nodes.Keys == s.nodes.Keys && Answering(s', candidate, term, done + voters)
      && candidate in s'.nodes && s'.nodes[candidate] == Counted(candidate, term, 0, |s.nodes|)
    decreases |voters|
  {
    if voters == [] {
      assert done + voters == done;
    } else {
      var s1 := Step(s, DeliverRequest(VoteRequest(candidate, voters[0], term)));
      AskOne(s, candidate, term, voters, done, s1);
      assert done + voters == done + [voters[0]] + voters[1..];
      assert AskAll(candidate, term, voters)[1..] == AskAll(candidate, term, voters[1..]);
      AskedAll(s1, candidate, term, voters[1..], done + [voters[0]]);
    }
  }

  lemma CollectOne(s: System, candidate: string, term: nat, voters: seq<string>, k: nat, s': System)
    requires Failover.NoDuplicates(voters) && voters != [] && candidate in s.nodes && candidate !in voters && Answering(s, candidate, term, voters)
    requires k + |voters| < |s.nodes| && s.nodes[candidate] == Counted(candidate, term, k, |s.nodes|)
    requires s' == Step(s, DeliverReply(VoteReply(candidate, voters[0], term, true, term)))
    ensures s'.nodes.Keys == s.nodes.Keys && |s'.nodes| == |s.nodes| && Answering(s', candidate, term, voters[1..])
    ensures forall n <- s.nodes :: n != candidate ==> s'.nodes[n] == s.nodes[n]
    ensures k + 1 < Majority(|s.nodes|) ==> s'.nodes[candidate] == Counted(candidate, term, k + 1, |s.nodes|)
    ensures k + 1 >= Majority(|s.nodes|) ==> s' == s
  {
    assert |s'.nodes| == |s'.nodes.Keys| == |s.nodes.Keys| == |s.nodes|;
  }

  lemma {:induction false} CollectedAll(s: System, candidate: string, term: nat, voters: seq<string>, k: nat)
    requires Failover.NoDuplicates(voters) && candidate in s.nodes && candidate !in voters && Answering(s, candidate, term, voters)
    requires k + |voters| < |s.nodes| && s.nodes[candidate] == Counted(candidate, term, k, |s.nodes|)
    ensures var s' := Run(s, CollectAll(candidate, term, voters));
      && s'.nodes.Keys == s.nodes.Keys && (forall n <- s.nodes :: n != candidate ==> s'.nodes[n] == s.nodes[n])
      && s'.nodes[candidate].term == term
      && if k + |voters| + 1 >= Majority(|s.nodes|) then s'.nodes[candidate] == Node(term, candidate, Idle)
         else s'.nodes[candidate].leader == NO_LEADER
    decreases |voters|
  {
    if voters != [] {
      var s1 := Step(s, DeliverReply(VoteReply(candidate, voters[0], term, true, term)));
      CollectOne(s, candidate, term, voters, k, s1);
      assert CollectAll(candidate, term, voters)[1..] == CollectAll(candidate, term, voters[1..]);
      CollectedAll(s1, candidate, term, voters[1..], if k + 1 < Majority(|s.nodes|) then k + 1 else k);
    }
  }

  lemma Starts(s: System, candidate: string, voters: seq<string>, s': System)
    requires MayElect(s, candidate, voters) && s' == Step(s, StartElection(candidate))
    ensures s'.nodes.Keys == s.nodes.Keys && |s'.nodes| == |s.nodes|
    ensures Asking(s', candidate, s.nodes[candidate].term + 1, voters)
  {
    assert s'.nodes.Keys == s.nodes.Keys;
    assert |s'.nodes| == |s'.nodes.Keys| == |s.nodes.Keys| == |s.nodes|;
  }

  /** The candidate does not lead, and the voters, each listed once, are idle and not ahead of it. */
  ghost predicate MayElect(s: System, candidate: string, voters: seq<string>) {
    && IsIdle(s, candidate) && s.nodes[candidate].leader != candidate
    && Failover.NoDuplicates(voters) && candidate !in voters
    && forall i | 0 <= i < |voters| :: IsIdle(s, voters[i]) && s.nodes[voters[i]].term <= s.nodes[candidate].term
  }

  function Election(s: System, candidate: string, voters: seq<string>): seq<Action>
    requires candidate in s.nodes
  {
    var term := s.nodes[candidate].term + 1;
    [StartElection(candidate)] + (AskAll(candidate, term, voters) + CollectAll(candidate, term, voters))
  }

  lemma FewerThanAll(all: set<string>, voters: seq<string>, candidate: string)
    requires Failover.NoDuplicates(voters) && candidate in all && candidate !in voters && forall i | 0 <= i < |voters| :: voters[i] in all
    ensures |voters| < |all|
  {
    Failover.CountElements(voters);
    SubsetSize(Failover.Elements(voters) + {candidate}, all);
  }

  /**
   The outcome of an election in which the candidate asked and heard these voters: they are in its term without a
   leader, and it leads if and only if it and they are a majority.
   */
  ghost predicate Decided(s: System, candidate: string, term: nat, voters: seq<string>, total: nat) {
    && candidate in s.nodes && s.nodes[candidate].term == term
    && (forall v <- voters :: v in s.nodes && s.nodes[v] == Node(term, NO_LEADER, Idle))
    && if |voters| + 1 >= Majority(total) then s.nodes[candidate] == Node(term, candidate, Idle)
       else s.nodes[candidate].leader == NO_LEADER
  }

  lemma Decides(s: System, candidate: string, term: nat, voters: seq<string>, collect: seq<Action>)
    requires Answering(s, candidate, term, voters) && Failover.NoDuplicates(voters) && candidate !in voters && |voters| < |s.nodes|
    requires candidate in s.nodes && s.nodes[candidate] == Counted(candidate, term, 0, |s.nodes|)
    requires collect == CollectAll(candidate, term, voters)
    ensures Run(s, collect).nodes.Keys == s.nodes.Keys && Decided(Run(s, collect), candidate, term, voters, |s.nodes|)
  {
    CollectedAll(s, candidate, term, voters, 0);
  }

  lemma Asked(s: System, candidate: string, term: nat, voters: seq<string>, ask: seq<Action>)
    requires Asking(s, candidate, term, voters) && Failover.NoDuplicates(voters) && ask == AskAll(candidate, term, voters)
    ensures var s' := Run(s, ask);
      && s'.nodes.Keys == s.nodes.Keys && |s'.nodes| == |s.nodes| && Answering(s', candidate, term, voters)
      && candidate in s'.nodes && s'.nodes[candidate] == Counted(candidate, term, 0, |s'.nodes|)
  {
    assert [] + voters == voters;
    AskedAll(s, candidate, term, voters, []);
    assert |Run(s, ask).nodes| == |Run(s, ask).nodes.Keys| == |s.nodes.Keys| == |s.nodes|;
  }

  lemma AskedAndCollected(s: System, candidate: string, term: nat, voters: seq<string>, ask: seq<Action>, collect: seq<Action>)
    requires Asking(s, candidate, term, voters) && Failover.NoDuplicates(voters) && candidate !in voters && |voters| < |s.nodes|
    requires ask == AskAll(candidate, term, voters) && collect == CollectAll(candidate, term, voters)
    ensures Run(s, ask + collect).nodes.Keys == s.nodes.Keys && Decided(Run(s, ask + collect), candidate, term, voters, |s.nodes|)
  {
    RunConcat(s, ask, collect);
    Asked(s, candidate, term, voters, ask);
    Decides(Run(s, ask), candidate, term, voters, collect);
  }

  /**
   From any state: a candidate whose requests and whose votes are delivered moves to its next term and becomes its
   leader if and only if it and the voters are a majority. The voters may have known any leader; they are in that term
   without one.
   */
  lemma ElectedByMajority(s: System, candidate: string, voters: seq<string>)
    requires MayElect(s, candidate, voters)
    ensures var s', term := Run(s, Election(s, candidate, voters)), s.nodes[candidate].term + 1;
      s'.nodes.Keys == s.nodes.Keys && Decided(s', candidate, term, voters, |s.nodes|)
  {
    var term, s1 := s.nodes[candidate].term + 1, Step(s, StartElection(candidate));
    var ask, collect := AskAll(candidate, term, voters), CollectAll(candidate, term, voters);
    FewerThanAll(s.nodes.Keys, voters, candidate);
    Starts(s, candidate, voters, s1);
    AskedAndCollected(s1, candidate, term, voters, ask, collect);
    FirstThen(s, StartElection(candidate), ask + collect);
  }

  lemma FirstThen(s: System, a: Action, rest: seq<Action>)
    ensures Run(s, [a] + rest) == Run(Step(s, a), rest)
  {
    assert ([a] + rest)[1..] == rest;
  }

  // ----- the winner becomes known

  function Tell(leader: string, term: nat, others: seq<string>): seq<Action> {
    seq(|others|, i requires 0 <= i < |others| => DeliverHealth(HealthCheck(leader, others[i], term)))
  }

  /** A node that hears of the leader of a term follows it unless it is ahead. */
  function Told(n: Node, leader: string, term: nat): Node {
    if n.term <= term then Node(term, leader, n.phase) else n
  }

  ghost predicate Telling(s: System, leader: string, term: nat, others: seq<string>) {
    forall i | 0 <= i < |others| :: IsIdle(s, others[i]) && HealthCheck(leader, others[i], term) in s.health
  }

  lemma TellOne(s: System, leader: string, term: nat, others: seq<string>, s': System)
    requires Failover.NoDuplicates(others) && others != [] && Telling(s, leader, term, others)
    requires s' == Step(s, DeliverHealth(HealthCheck(leader, others[0], term)))
    ensures s'.nodes == s.nodes[others[0] := Told(s.nodes[others[0]], leader, term)] && Telling(s', leader, term, others[1..])
  {
  }

  lemma {:induction false} ToldAll(s: System, leader: string, term: nat, others: seq<string>)
    requires Failover.NoDuplicates(others) && Telling(s, leader, term, others)
    ensures var s' := Run(s, Tell(leader, term, others));
      && s'.nodes.Keys == s.nodes.Keys
      && forall n <- s.nodes :: s'.nodes[n] == if n in others then Told(s.nodes[n], leader, term) else s.nodes[n]
    decreases |others|
  {
    if others != [] {
      var s1 := Step(s, DeliverHealth(HealthCheck(leader, others[0], term)));
      TellOne(s, leader, term, others, s1);
      assert s1.nodes.Keys == s.nodes.Keys;
      assert Tell(leader, term, others)[1..] == Tell(leader, term, others[1..]);
      ToldAll(s1, leader, term, others[1..]);
      assert forall n :: n in others <==> n == others[0] || n in others[1..];
    }
  }

  function Announcement(s: System, leader: string, others: seq<string>): seq<Action>
    requires leader in s.nodes
  {
    [SendHealth(leader)] + Tell(leader, s.nodes[leader].term, others)
  }

  /** From any state: the idle nodes that a leader's checks reach follow it, except those already in a later term. */
  lemma LeaderBecomesKnown(s: System, leader: string, others: seq<string>)
    requires IsIdle(s, leader) && s.nodes[leader].leader == leader
    requires Failover.NoDuplicates(others) && leader !in others && forall i | 0 <= i < |others| :: IsIdle(s, others[i])
    ensures var s' := Run(s, Announcement(s, leader, others));
      && s'.nodes.Keys == s.nodes.Keys
      && forall n <- s.nodes :: s'.nodes[n] ==
           if n in others && s.nodes[n].term <= s.nodes[leader].term then Node(s.nodes[leader].term, leader, Idle) else s.nodes[n]
  {
    var s1 := Step(s, SendHealth(leader));
    assert Telling(s1, leader, s.nodes[leader].term, others);
    ToldAll(s1, leader, s.nodes[leader].term, others);
    FirstThen(s, SendHealth(leader), Tell(leader, s.nodes[leader].term, others));
    forall n <- s.nodes ensures n in others ==> IsIdle(s, n) { }
  }

  /**
   Failover completes: in any state, whatever leaders are known, an idle node that with some idle nodes not ahead of it
   is a majority can become the leader that all of them know, in a term that is new to all of them.
   */
  lemma FailoverCompletes(s: System, candidate: string, voters: seq<string>)
    requires MayElect(s, candidate, voters) && |voters| + 1 >= Majority(|s.nodes|)
    ensures var elected := Run(s, Election(s, candidate, voters));
      && candidate in elected.nodes
      && var s' := Run(s, Election(s, candidate, voters) + Announcement(elected, candidate, voters));
         forall n <- {candidate} + Failover.Elements(voters) ::
           n in s.nodes && n in s'.nodes && s'.nodes[n] == Node(s.nodes[candidate].term + 1, candidate, Idle)
  {
    var elected := Run(s, Election(s, candidate, voters));
    ElectedByMajority(s, candidate, voters);
    LeaderBecomesKnown(elected, candidate, voters);
    RunConcat(s, Election(s, candidate, voters), Announcement(elected, candidate, voters));
  }
}
