/** What one cluster node has come to after a run, said in terms of the events of the run. */
module NodeRuns {
  import opened Failover
  import opened Quorum
  import LeaderElection

  // ----- elections

  /** The votes in favour among the first k events. */
  function Favour(events: seq<VoteEvent>, k: nat): nat
    requires k <= |events|
  {
    if k == 0 then 0 else Favour(events, k - 1) + if events[k - 1].Reply? && events[k - 1].granted then 1 else 0
  }

  /** The timer, or a refusal by a voter in a later term. */
  predicate Stops(e: VoteEvent, term: nat) {
    e.TimerFired? || (e.Reply? && !e.granted && term < e.term)
  }

  /** The first k events, of at most one per other node, make a majority before anything stops the election. */
  predicate WinsAfter(events: seq<VoteEvent>, term: nat, total: nat, k: nat) {
    && k <= |events| && k < total && 1 + Favour(events, k) >= Majority(total)
    && forall j | 0 <= j < k :: !Stops(events[j], term)
  }

  ghost predicate Wins(events: seq<VoteEvent>, term: nat, total: nat) {
    exists k :: WinsAfter(events, term, total, k)
  }

  lemma {:induction false} CountFrom(term: nat, self: string, total: nat, events: seq<VoteEvent>, k: nat)
    requires k <= |events| && k < total && forall j | 0 <= j < k :: !Stops(events[j], term)
    ensures Counting(term, self, total, events, k, k, 1 + Favour(events, k)) == LeaderElection.Node(term,
      if exists m :: k <= m && WinsAfter(events, term, total, m) then self else LeaderElection.NO_LEADER, LeaderElection.Idle)
    decreases |events| - k
  {
    var votes := 1 + Favour(events, k);
    if k == |events| || k + 1 >= total || votes >= Majority(total) {
      CountDone(term, self, total, events, k, k, votes);
      assert votes >= Majority(total) ==> WinsAfter(events, term, total, k);
    } else {
      CountNext(term, self, total, events, k, k, votes);
      if Stops(events[k], term) {
        var (i, v) := NextCount(events[k], term, total, k, votes);
        CountDone(term, self, total, events, k + 1, i, v);
        assert forall m :: k < m ==> !WinsAfter(events, term, total, m);
      } else {
        CountFrom(term, self, total, events, k + 1);
      }
    }
  }

  /** An election makes the node leader of its next term if and only if a majority votes for it before anything stops it. */
  lemma ElectedExactly(core: LeaderElection.Node, self: string, total: nat, events: seq<VoteEvent>)
    requires total > 0
    ensures Elect(LeaderElection.Begin(core, self, total), self, total, events) == LeaderElection.Node(core.term + 1,
      if Wins(events, core.term + 1, total) then self else LeaderElection.NO_LEADER, LeaderElection.Idle)
  {
    CountFrom(core.term + 1, self, total, events, 0);
    assert events[0..] == events;
  }

  // ----- patience

  function Beats(events: seq<Event>): nat {
    if events == [] then 0 else Beats(events[..|events| - 1]) + if events[|events| - 1].Heartbeat? then 1 else 0
  }

  /** The term a node that hears only of elections ends up in. */
  function TermAfter(term: nat, events: seq<Event>): nat {
    if events == [] then term
    else
      var before, e := TermAfter(term, events[..|events| - 1]), events[|events| - 1];
      if e.VoteRequested? && e.term > before then e.term else before
  }

  /** The node as it is when nothing but votes and silence came after n. */
  function Waiting(n: Node, quiet: seq<Event>): Node {
    var term := TermAfter(n.core.term, quiet);
    n.(missed := n.missed + Beats(quiet),
       core := n.core.(term := term, leader := if term > n.core.term then LeaderElection.NO_LEADER else n.core.leader))
  }

  lemma {:induction false} TermsRise(term: nat, events: seq<Event>)
    ensures term <= TermAfter(term, events)
  {
    if events != [] { TermsRise(term, events[..|events| - 1]); }
  }

  lemma WaitStep(c: Setup, n: Node, quiet: seq<Event>, e: Event, longer: seq<Event>)
    requires !Leads(c, n) && c.self != LeaderElection.NO_LEADER && longer == quiet + [e]
    requires !e.HealthChecked? && n.missed + Beats(longer) < c.voteTimeout
    ensures Step(c, Up(Waiting(n, quiet)), e) == Up(Waiting(n, longer))
  {
    assert longer[..|longer| - 1] == quiet;
    TermsRise(n.core.term, quiet);
  }

  lemma BeatsGrow(quiet: seq<Event>, e: Event, longer: seq<Event>)
    requires longer == quiet + [e]
    ensures Beats(quiet) <= Beats(longer) && |quiet| == |longer| - 1
  {
    assert longer[..|longer| - 1] == quiet;
  }

  lemma WaitsNext(c: Setup, before: seq<Event>, n: Node, init: seq<Event>, e: Event, quiet: seq<Event>)
    requires Run(c, before) == Up(Waiting(n, init)) && !Leads(c, n) && c.self != LeaderElection.NO_LEADER
    requires quiet == init + [e] && !e.HealthChecked? && n.missed + Beats(quiet) < c.voteTimeout
    ensures Run(c, before + [e]) == Up(Waiting(n, quiet))
  {
    NextEvent(c, before, e);
    WaitStep(c, n, init, e, quiet);
  }

  /** A node that does not lead waits: votes and silence change its term and count its patience down, nothing else. */
  lemma {:induction false} Waits(c: Setup, events: seq<Event>, n: Node, quiet: seq<Event>)
    requires Run(c, events) == Up(n) && !Leads(c, n) && c.self != LeaderElection.NO_LEADER
    requires (forall e <- quiet :: !e.HealthChecked?) && (quiet == [] || n.missed + Beats(quiet) < c.voteTimeout)
    ensures Run(c, events + quiet) == Up(Waiting(n, quiet))
    decreases |quiet|
  {
    if quiet == [] {
      assert events + quiet == events;
    } else {
      var k := |quiet| - 1;
      var init, e := quiet[..k], quiet[k];
      BeatsGrow(init, e, quiet);
      Waits(c, events, n, init);
      assert e in quiet;
      WaitsNext(c, events + init, n, init, e, quiet);
      assert events + quiet == events + init + [e];
    }
  }

  /** One more silent heartbeat, or the outcome of the election it starts. */
  ghost function OnePatienceLess(c: Setup, w: Node, votes: seq<VoteEvent>): Node {
    var term := w.core.term + 1;
    if w.missed + 1 < c.voteTimeout then w.(missed := w.missed + 1)
    else w.(missed := 0, core := LeaderElection.Node(term,
           if Wins(votes, term, |c.peers| + 1) then c.self else LeaderElection.NO_LEADER, LeaderElection.Idle))
  }

  /** A heartbeat of a node that does not lead. */
  lemma Beat(c: Setup, w: Node, reached: set<string>, votes: seq<VoteEvent>)
    requires !Leads(c, w)
    ensures Step(c, Up(w), Heartbeat(reached, votes)) == Up(OnePatienceLess(c, w, votes))
  {
    ElectedExactly(w.core, c.self, |c.peers| + 1, votes);
  }

  lemma WaitingFollows(c: Setup, n: Node, quiet: seq<Event>)
    requires !Leads(c, n) && c.self != LeaderElection.NO_LEADER
    ensures !Leads(c, Waiting(n, quiet))
  {
  }

  /**
   A node that does not lead stands for election at the heartbeat that makes the given number of silent ones, neither
   before nor after, whatever votes it gives in between. It is elected exactly if a majority votes for it in time.
   */
  lemma PatienceIsExact(c: Setup, events: seq<Event>, n: Node, quiet: seq<Event>, reached: set<string>, votes: seq<VoteEvent>)
    requires Run(c, events) == Up(n) && !Leads(c, n) && c.self != LeaderElection.NO_LEADER
    requires (forall e <- quiet :: !e.HealthChecked?) && (quiet == [] || n.missed + Beats(quiet) < c.voteTimeout)
    ensures Run(c, events + quiet + [Heartbeat(reached, votes)]) == Up(OnePatienceLess(c, Waiting(n, quiet), votes))
  {
    Waits(c, events, n, quiet);
    WaitingFollows(c, n, quiet);
    NextEvent(c, events + quiet, Heartbeat(reached, votes));
    Beat(c, Waiting(n, quiet), reached, votes);
  }

  /** A check that is not outdated makes the node follow its sender with all its patience; an outdated one does nothing. */
  lemma CheckRestoresPatience(c: Setup, events: seq<Event>, n: Node, h: ClusterHealth)
    requires Run(c, events) == Up(n) && Run(c, events + [HealthChecked(h)]).Up?
    ensures var m := Run(c, events + [HealthChecked(h)]).node;
      if h.term < n.core.term then m == n
      else m.missed == 0 && m.core == n.core.(term := h.term, leader := h.leader) && m.detector == n.detector
  {
    NextEvent(c, events, HealthChecked(h));
  }

  // ----- failure detection

  /** The peers reached in the rounds of health checks that the node led in the run. */
  ghost function RoundsLed(c: Setup, events: seq<Event>): seq<set<string>> {
    if events == [] then []
    else
      var init, e := events[..|events| - 1], events[|events| - 1];
      RoundsLed(c, init) + if Run(c, init).Up? && Leads(c, Run(c, init).node) && e.Heartbeat? then [e.reached] else []
  }

  /** The last k rounds missed the peer. */
  ghost predicate MissedLast(rounds: seq<set<string>>, p: string, k: nat) {
    k <= |rounds| && forall j | |rounds| - k <= j < |rounds| :: p !in rounds[j]
  }

  /** The counter of a peer is the number of rounds that have missed it in a row. */
  ghost predicate CountsMisses(rounds: seq<set<string>>, fails: map<string, nat>) {
    forall p <- fails :: MissedLast(rounds, p, fails[p]) && !MissedLast(rounds, p, fails[p] + 1)
  }

  lemma NextRound(rounds: seq<set<string>>, fails: map<string, nat>, reached: set<string>)
    requires CountsMisses(rounds, fails)
    ensures CountsMisses(rounds + [reached], NextFails(fails, reached))
  {
    var next, rounds' := NextFails(fails, reached), rounds + [reached];
    forall p <- next ensures MissedLast(rounds', p, next[p]) && !MissedLast(rounds', p, next[p] + 1) {
      assert MissedLast(rounds, p, fails[p]) && !MissedLast(rounds, p, fails[p] + 1);
      assert rounds'[|rounds|] == reached;
      if p !in reached && fails[p] + 1 <= |rounds| {
        var j :| |rounds| - (fails[p] + 1) <= j < |rounds| && p in rounds[j];
        assert p in rounds'[j];
      }
    }
  }

  lemma {:induction false} FailuresAreCounted(c: Setup, events: seq<Event>)
    requires Run(c, events).Up?
    ensures CountsMisses(RoundsLed(c, events), Run(c, events).node.detector.fails)
  {
    if events != [] {
      var k := |events| - 1;
      FailuresAreCounted(c, events[..k]);
      var n := Run(c, events[..k]).node;
      if Leads(c, n) && events[k].Heartbeat? {
        NextRound(RoundsLed(c, events[..k]), n.detector.fails, events[k].reached);
      } else {
        assert RoundsLed(c, events) == RoundsLed(c, events[..k]);
      }
    }
  }

  /** In every run a peer is taken to be down if and only if each of the last `limit` rounds that the node led missed it. */
  lemma InactiveExactly(c: Setup, events: seq<Event>, p: string)
    requires c.limit >= 1 && p in c.peers && c.self !in c.peers && Run(c, events).Up?
    ensures p !in Run(c, events).node.detector.active <==> MissedLast(RoundsLed(c, events), p, c.limit)
  {
    var rounds, d := RoundsLed(c, events), Run(c, events).node.detector;
    ActiveIsExact(c, events);
    FailuresAreCounted(c, events);
    assert MissedLast(rounds, p, d.fails[p]) && !MissedLast(rounds, p, d.fails[p] + 1);
    FewerMisses(rounds, p);
  }

  lemma FewerMisses(rounds: seq<set<string>>, p: string)
    ensures forall a: nat, b: nat :: a <= b && MissedLast(rounds, p, b) ==> MissedLast(rounds, p, a)
  {
  }

  // ----- the ring of a follower

  /** The checks of the run that were not outdated and came with another ring than the node had. */
  ghost function Differing(c: Setup, events: seq<Event>): seq<ClusterHealth> {
    if events == [] then []
    else
      var init, e := events[..|events| - 1], events[|events| - 1];
      Differing(c, init) + if Run(c, init).Up? && e.HealthChecked? && Differs(Run(c, init).node, e.health) then [e.health] else []
  }

  predicate Differs(n: Node, h: ClusterHealth) {
    h.term >= n.core.term && h.signature != n.ring
  }

  /** The ring of a node and whether it has skipped a check, by the checks that differed. */
  ghost predicate RingFollows(c: Setup, n: Node, checks: seq<ClusterHealth>) {
    && (n.rehashSkipped <==> |checks| % 2 == 1)
    && n.ring == if |checks| < 2 then RingOf(c.build, {c.self} + c.peers) else c.build(checks[|checks| / 2 * 2 - 1].nodes)
  }

  lemma RingStep(c: Setup, n: Node, checks: seq<ClusterHealth>, e: Event)
    requires RingFollows(c, n, checks) && !(e.Heartbeat? && Leads(c, n)) && Step(c, Up(n), e).Up?
    ensures RingFollows(c, Step(c, Up(n), e).node, checks + if e.HealthChecked? && Differs(n, e.health) then [e.health] else [])
  {
    if e.HealthChecked? && Differs(n, e.health) {
      var more := checks + [e.health];
      assert |checks| % 2 == 0 ==> |more| / 2 * 2 == |checks|;
      assert |checks| % 2 == 1 ==> |more| / 2 * 2 - 1 == |checks|;
    } else {
      assert checks + [] == checks;
    }
  }

  /**
   In every run a node that has not led has the ring of all nodes until the second check that differs, and then the
   ring of the list in the latest check that differed and was second, fourth and so on; it never takes over another.
   */
  lemma {:induction false} EverySecondCheckCounts(c: Setup, events: seq<Event>)
    requires Run(c, events).Up? && !HasLed(c, events)
    ensures RingFollows(c, Run(c, events).node, Differing(c, events))
  {
    if events != [] {
      var k := |events| - 1;
      var init, e := events[..k], events[k];
      forall j | 0 <= j < k && init[j].Heartbeat? && Run(c, init[..j]).Up? ensures !Leads(c, Run(c, init[..j]).node) {
        assert init[..j] == events[..j];
      }
      EverySecondCheckCounts(c, init);
      assert e.Heartbeat? ==> !Leads(c, Run(c, events[..k]).node);
      RingStep(c, Run(c, init).node, Differing(c, init), e);
    }
  }
}
