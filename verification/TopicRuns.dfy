/** Which topics a node has loaded after a run, and where requests for them arrive. */
module TopicRuns {
  import opened RingHash
  import opened TopicOwnership

  // ----- when a topic is loaded and when it goes

  /** The hub is about to look at the topic, which is loaded in the role that another ring gave it. */
  predicate DropsWrongRole(c: Config, s: System, a: Action, n: string, topic: string) {
    && a == VisitTopic(n, topic) && n in s.nodes && topic in s.nodes[n].left && topic in s.nodes[n].topics
    && s.nodes[n].topics[topic].isProxy != (Get(c.hashing, s.nodes[n].ring, topic) != n)
  }

  /** A topic that is loaded now: a proxy with the name of the owner by the current ring, or a master. */
  function Loaded(c: Config, n: HubNode, self: string, topic: string): Topic {
    var owner := Get(c.hashing, n.ring, topic);
    if owner == self then Topic(false, "") else Topic(true, owner)
  }

  predicate Loads(s: System, a: Action, n: string, topic: string) {
    a == Join(n, topic) && n in s.nodes && s.nodes[n].left == {} && topic !in s.nodes[n].topics
  }

  predicate Unloads(c: Config, s: System, a: Action, n: string, topic: string) {
    (a == Unregister(n, topic) && n in s.nodes && s.nodes[n].left == {}) || DropsWrongRole(c, s, a, n, topic)
  }

  /**
   A join loads a topic that is not loaded, in the role the current ring gives it; an unregistration, or a visit that
   finds it in the wrong role, unloads it; and no other step of any node touches it.
   */
  lemma TopicChangesExactly(c: Config, s: System, a: Action, n: string, topic: string)
    requires n in s.nodes
    ensures var before, s' := s.nodes[n], Step(c, s, a);
      && s'.nodes.Keys == s.nodes.Keys
      && var after := s'.nodes[n];
         && (topic in after.topics <==> Loads(s, a, n, topic) || (topic in before.topics && !Unloads(c, s, a, n, topic)))
         && (topic in after.topics ==>
               after.topics[topic] == if topic in before.topics then before.topics[topic] else Loaded(c, before, n, topic))
  {
  }

  /** A step leaves the ring of a node alone, unless it is a ring change of this node; that is pending until the hub takes it. */
  lemma RingChangesExactly(c: Config, s: System, a: Action, n: string)
    requires n in s.nodes
    ensures var s' := Step(c, s, a);
      && n in s'.nodes
      && var changes := a.ChangeRing? && a.node == n && !s.nodes[n].pending;
         && s'.nodes[n].ring == (if changes then Build(c.hashing, a.members) else s.nodes[n].ring)
         && (s'.nodes[n].pending <==> changes || (s.nodes[n].pending && !(a == TakeRingChange(n) && s.nodes[n].left == {})))
  {
  }

  /** No action of the run unloads the topic at n when its turn comes. */
  ghost predicate NothingUnloads(c: Config, s: System, actions: seq<Action>, n: string, topic: string)
    decreases |actions|
  {
    actions == [] || (!Unloads(c, s, actions[0], n, topic) && NothingUnloads(c, Step(c, s, actions[0]), actions[1..], n, topic))
  }

  /** Over every run a loaded topic stays as it is until it is unregistered or visited in the wrong role. */
  lemma {:induction false} LoadedStays(c: Config, s: System, actions: seq<Action>, n: string, topic: string)
    requires n in s.nodes && topic in s.nodes[n].topics && NothingUnloads(c, s, actions, n, topic)
    ensures var s' := Run(c, s, actions);
      n in s'.nodes && topic in s'.nodes[n].topics && s'.nodes[n].topics[topic] == s.nodes[n].topics[topic]
    decreases |actions|
  {
    if actions != [] {
      TopicChangesExactly(c, s, actions[0], n, topic);
      LoadedStays(c, Step(c, s, actions[0]), actions[1..], n, topic);
    }
  }

  // ----- the owner runs the topic

  /** A topic that is not a proxy has no name of a master recorded. */
  ghost predicate MastersUnnamed(s: System) {
    forall n <- s.nodes, t <- s.nodes[n].topics :: s.nodes[n].topics[t].isProxy || s.nodes[n].topics[t].masterNode == ""
  }

  lemma {:induction false} RunKeepsMasters(c: Config, s: System, actions: seq<Action>)
    requires MastersUnnamed(s)
    ensures MastersUnnamed(Run(c, s, actions))
    decreases |actions|
  {
    if actions != [] {
      var s1 := Step(c, s, actions[0]);
      forall n <- s1.nodes, t <- s1.nodes[n].topics ensures s1.nodes[n].topics[t].isProxy || s1.nodes[n].topics[t].masterNode == "" {
        assert n in s.nodes;
        TopicChangesExactly(c, s, actions[0], n, t);
      }
      RunKeepsMasters(c, s1, actions[1..]);
    }
  }

  /** The hub of n is settled and runs the topic as its master. */
  ghost predicate RunsIt(c: Config, s: System, n: string, topic: string) {
    && n in s.nodes && Handled(s.nodes[n]) && Get(c.hashing, s.nodes[n].ring, topic) == n
    && topic in s.nodes[n].topics && s.nodes[n].topics[topic] == Topic(false, "")
  }

  lemma {:induction false} GoesOnRunning(c: Config, s: System, actions: seq<Action>, n: string, topic: string)
    requires RunsIt(c, s, n, topic)
    requires forall a <- actions :: !(a.ChangeRing? && a.node == n) && a != Unregister(n, topic)
    ensures RunsIt(c, Run(c, s, actions), n, topic)
    decreases |actions|
  {
    if actions != [] {
      assert actions[0] in actions;
      TopicChangesExactly(c, s, actions[0], n, topic);
      StaysHandled(c, s, actions[0], n);
      GoesOnRunning(c, Step(c, s, actions[0]), actions[1..], n, topic);
    }
  }

  lemma StaysHandled(c: Config, s: System, a: Action, n: string)
    requires n in s.nodes && Handled(s.nodes[n]) && !(a.ChangeRing? && a.node == n)
    ensures var s' := Step(c, s, a); n in s'.nodes && Handled(s'.nodes[n]) && s'.nodes[n].ring == s.nodes[n].ring
  {
  }

  /**
   A node that has handled its latest ring change and owns a topic runs it as master from its first join on, until its
   ring changes or the topic is unregistered, whatever came before and whatever else happens.
   */
  lemma OwnerRunsTopic(c: Config, s: System, actions: seq<Action>, n: string, topic: string, later: seq<Action>)
    requires IsInitial(c, s)
    requires var s' := Run(c, s, actions); n in s'.nodes && Handled(s'.nodes[n]) && Get(c.hashing, s'.nodes[n].ring, topic) == n
    requires forall a <- later :: !(a.ChangeRing? && a.node == n) && a != Unregister(n, topic)
    ensures RunsIt(c, Run(c, Step(c, Run(c, s, actions), Join(n, topic)), later), n, topic)
  {
    var s' := Run(c, s, actions);
    var joined := Step(c, s', Join(n, topic));
    RunKeepsMasters(c, s, actions);
    TopicChangesExactly(c, s', Join(n, topic), n, topic);
    StaysHandled(c, s', Join(n, topic), n);
    if topic in s'.nodes[n].topics {
      SettledNodesAreRight(c, s, actions, n, topic);
    }
    GoesOnRunning(c, joined, later, n, topic);
  }

  /** When all nodes are settled on one ring and have joined a topic, its owner is the one node that runs it as master. */
  lemma ExactlyOneMaster(c: Config, s: System, actions: seq<Action>, ring: Ring, topic: string)
    requires IsInitial(c, s)
    requires var s' := Run(c, s, actions); forall n <- c.nodes :: HasSettled(s', n, topic) && s'.nodes[n].ring == ring
    ensures var s' := Run(c, s, actions); forall n <- c.nodes :: !s'.nodes[n].topics[topic].isProxy <==> n == Get(c.hashing, ring, topic)
  {
    forall n <- c.nodes ensures !Run(c, s, actions).nodes[n].topics[topic].isProxy <==> n == Get(c.hashing, ring, topic) {
      SettledNodesAreRight(c, s, actions, n, topic);
    }
  }

  // ----- requests arrive

  /** A node sends one request, to the owner by its ring, if and only if that is another configured node. */
  lemma SentExactly(c: Config, s: System, n: string, topic: string, gone: bool)
    requires n in s.nodes
    ensures var owner := Get(c.hashing, s.nodes[n].ring, topic);
      Step(c, s, Send(n, topic, gone)) ==
        if owner != n && owner in c.nodes
        then s.(requests := s.requests + {Request(n, owner, topic, c.sign(s.nodes[n].ring), gone)}) else s
  {
  }

  lemma {:induction false} StaysInFlight(c: Config, s: System, actions: seq<Action>, r: Request)
    requires r in s.requests && Consume(r) !in actions
    ensures r in Run(c, s, actions).requests
    decreases |actions|
  {
    if actions != [] {
      StaysInFlight(c, Step(c, s, actions[0]), actions[1..], r);
    }
  }

  /**
   A request travels until it is taken, and its receiver accepts it if and only if it is not a farewell and the receiver
   by then has the ring the sender had. So a sender and an owner that agree on the ring are never kept apart.
   */
  lemma ArrivesExactly(c: Config, s: System, n: string, topic: string, gone: bool, actions: seq<Action>)
    requires SignaturesTell(c) && s.nodes.Keys == c.nodes && n in s.nodes
    requires var owner := Get(c.hashing, s.nodes[n].ring, topic);
      owner != n && owner in c.nodes && Consume(Request(n, owner, topic, c.sign(s.nodes[n].ring), gone)) !in actions
    ensures var owner := Get(c.hashing, s.nodes[n].ring, topic);
      var r, s' := Request(n, owner, topic, c.sign(s.nodes[n].ring), gone), Run(c, Step(c, s, Send(n, topic, gone)), actions);
      && r in s'.requests && owner in s'.nodes
      && (Accepts(c, s'.nodes[owner], owner, r) <==> !gone && s'.nodes[owner].ring == s.nodes[n].ring)
  {
    var owner := Get(c.hashing, s.nodes[n].ring, topic);
    var r := Request(n, owner, topic, c.sign(s.nodes[n].ring), gone);
    var sent := Step(c, s, Send(n, topic, gone));
    SentExactly(c, s, n, topic, gone);
    StaysInFlight(c, sent, actions, r);
    NodesStay(c, sent, actions);
  }

  lemma {:induction false} NodesStay(c: Config, s: System, actions: seq<Action>)
    ensures Run(c, s, actions).nodes.Keys == s.nodes.Keys
    decreases |actions|
  {
    if actions != [] {
      assert Step(c, s, actions[0]).nodes.Keys == s.nodes.Keys;
      NodesStay(c, Step(c, s, actions[0]), actions[1..]);
    }
  }
}
