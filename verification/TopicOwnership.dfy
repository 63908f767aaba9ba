/**
 Which node of the cluster runs a topic: the topics loaded by the hub of every node, the hash rings
 the nodes use at the moment, and the requests that travel between them.

 A node changes its ring and then signals its hub. The hub visits its topics one by one; the ring may
 change again while it does, and requests and the steps of other nodes may come in between as well.
 */
module TopicOwnership {
  import opened RingHash

  /** What all nodes share. `sign` is the ring signature. */
  datatype Config = Config(hashing: Hashing, sign: Ring -> string, nodes: set<string>)

  /** Different rings have different signatures. */
  ghost predicate SignaturesTell(c: Config) {
    forall r, s :: c.sign(r) == c.sign(s) ==> r == s
  }

  datatype Topic = Topic(isProxy: bool, masterNode: string)

  /**
   `pending` means that the ring has changed and the hub has not taken the signal yet; `left` are the
   topics the hub has still to visit.
   */
  datatype HubNode = HubNode(ring: Ring, pending: bool, left: set<string>, topics: map<string, Topic>)

  datatype Request = Request(from: string, to: string, topic: string, signature: string, gone: bool)

  datatype RequestType = JoinType | LeaveType | MetaType | BroadcastType | BgSessionType | UserAgentType | OtherType

  datatype System = System(nodes: map<string, HubNode>, requests: set<Request>)

  function Owner(c: Config, ring: Ring, topic: string): string {
    Get(c.hashing, ring, topic)
  }

  predicate IsRemote(c: Config, ring: Ring, self: string, topic: string) {
    Owner(c, ring, topic) != self
  }

  // ----- steps of one hub

  /** Load a topic, as a proxy or as a master depending on the current ring. */
  function JoinTopic(c: Config, n: HubNode, self: string, topic: string): HubNode {
    if topic in n.topics then n
    else
      var remote := IsRemote(c, n.ring, self, topic);
      n.(topics := n.topics[topic := Topic(remote, if remote then Owner(c, n.ring, topic) else "")])
  }

  function DropTopic(n: HubNode, topic: string): HubNode {
    n.(topics := n.topics - {topic})
  }

  predicate RightPlace(c: Config, n: HubNode, self: string, topic: string)
    requires topic in n.topics
  {
    n.topics[topic].isProxy == IsRemote(c, n.ring, self, topic)
  }

  function TakeSignal(n: HubNode): HubNode {
    n.(pending := false, left := n.topics.Keys)
  }

  /** The hub looks at one topic and drops it if it is loaded in the wrong role. */
  function Visit(c: Config, n: HubNode, self: string, topic: string): HubNode {
    if topic !in n.left then n
    else n.(left := n.left - {topic},
            topics := if topic in n.topics && !RightPlace(c, n, self, topic) then n.topics - {topic} else n.topics)
  }

  /** The hub's reaction to a ring change: only the topics loaded in the right role survive. */
  function SettleHub(c: Config, n: HubNode, self: string): HubNode {
    HubNode(n.ring, false, {}, map t | t in n.topics && RightPlace(c, n, self, t) :: n.topics[t])
  }

  function VisitAll(c: Config, n: HubNode, self: string, order: seq<string>): HubNode
    decreases |order|
  {
    if order == [] then n else VisitAll(c, Visit(c, n, self, order[0]), self, order[1..])
  }

  lemma VisitChangesNothingInTheEnd(c: Config, n: HubNode, self: string, topic: string)
    ensures SettleHub(c, Visit(c, n, self, topic), self) == SettleHub(c, n, self)
  {
    var left, right := SettleHub(c, Visit(c, n, self, topic), self).topics, SettleHub(c, n, self).topics;
    assert forall t :: t in left <==> t in right;
  }

  /** If the ring stays as it is, the visits settle the hub, in whatever order they come. */
  lemma {:induction false} VisitsSettle(c: Config, n: HubNode, self: string, order: seq<string>)
    requires !n.pending && forall t <- n.left :: t in order
    requires forall t <- n.topics :: t in n.left || RightPlace(c, n, self, t)
    ensures VisitAll(c, n, self, order) == SettleHub(c, n, self)
    decreases |order|
  {
    if order == [] {
      assert n.topics == SettleHub(c, n, self).topics;
    } else {
      VisitChangesNothingInTheEnd(c, n, self, order[0]);
      VisitsSettle(c, Visit(c, n, self, order[0]), self, order[1..]);
    }
  }

  /** The loaded topics when those in `left` have not been visited yet. */
  ghost function Swept(c: Config, n: HubNode, self: string, left: set<string>): map<string, Topic> {
    map t | t in n.topics && (t in left || RightPlace(c, n, self, t)) :: n.topics[t]
  }

  lemma SweepOne(c: Config, n: HubNode, self: string, left: set<string>, topic: string)
    requires topic in left && topic in n.topics
    ensures var swept := Swept(c, n, self, left);
      && topic in swept && swept[topic] == n.topics[topic]
      && Swept(c, n, self, left - {topic}) == if RightPlace(c, n, self, topic) then swept else swept - {topic}
  {
  }

  // ----- requests between nodes

  /**
   The request a node sends for a topic: signed with its view `signed` of the ring and addressed with
   its view `addressed`. There is none when the topic is its own or has no known owner.
   */
  function MakeRequest(c: Config, self: string, signed: Ring, addressed: Ring, topic: string, gone: bool): (r: set<Request>) {
    var to := Owner(c, addressed, topic);
    if to == self || to !in c.nodes then {} else {Request(self, to, topic, c.sign(signed), gone)}
  }

  /** The receiver takes the request: the sender is known and the signature is that of its own ring. */
  predicate Accepts(c: Config, n: HubNode, self: string, r: Request) {
    r.from in c.nodes && r.from != self && !r.gone && r.signature == c.sign(n.ring)
  }

  // ----- the system

  datatype Action =
    | ChangeRing(node: string, members: seq<string>)
    | TakeRingChange(node: string)
    | VisitTopic(node: string, topic: string)
    | Join(node: string, topic: string)
    | Unregister(node: string, topic: string)
    | Send(node: string, topic: string, gone: bool)
    | Consume(request: Request)

  predicate HubIsFree(s: System, n: string) {
    n in s.nodes && s.nodes[n].left == {}
  }

  /**
   The failover loop waits until the hub takes its signal, so a node has one change pending at most. The
   hub does one thing at a time: while it visits topics it takes no signal and loads and drops nothing.
   */
  predicate Enabled(s: System, a: Action) {
    match a
    case ChangeRing(n, _) => n in s.nodes && !s.nodes[n].pending
    case TakeRingChange(n) => HubIsFree(s, n) && s.nodes[n].pending
    case VisitTopic(n, _) => n in s.nodes
    case Join(n, _) => HubIsFree(s, n)
    case Unregister(n, _) => HubIsFree(s, n)
    case Send(n, _, _) => n in s.nodes
    case Consume(r) => true
  }

  function Apply(c: Config, s: System, a: Action): System
    requires Enabled(s, a)
  {
    match a
    case ChangeRing(n, members) =>
      s.(nodes := s.nodes[n := s.nodes[n].(ring := Build(c.hashing, members), pending := true)])
    case TakeRingChange(n) => s.(nodes := s.nodes[n := TakeSignal(s.nodes[n])])
    case VisitTopic(n, topic) => s.(nodes := s.nodes[n := Visit(c, s.nodes[n], n, topic)])
    case Join(n, topic) => s.(nodes := s.nodes[n := JoinTopic(c, s.nodes[n], n, topic)])
    case Unregister(n, topic) => s.(nodes := s.nodes[n := DropTopic(s.nodes[n], topic)])
    case Send(n, topic, gone) =>
      s.(requests := s.requests + MakeRequest(c, n, s.nodes[n].ring, s.nodes[n].ring, topic, gone))
    case Consume(r) => s.(requests := s.requests - {r})
  }

  function Step(c: Config, s: System, a: Action): System {
    if Enabled(s, a) then Apply(c, s, a) else s
  }

  function Run(c: Config, s: System, actions: seq<Action>): System
    decreases |actions|
  {
    if actions == [] then s else Run(c, Step(c, s, actions[0]), actions[1..])
  }

  /** Every node starts with a ring, whichever it is, and no topics. */
  ghost predicate IsInitial(c: Config, s: System) {
    && s.nodes.Keys == c.nodes && s.requests == {}
    && forall n <- s.nodes :: Handled(s.nodes[n]) && s.nodes[n].topics == map[]
  }

  // ----- invariants

  /** The hub has handled the latest ring change. */
  predicate Handled(n: HubNode) {
    !n.pending && n.left == {}
  }

  /** No ring change is pending and the topics already visited are in the right role. */
  ghost predicate VisitedAreRight(c: Config, n: HubNode, self: string) {
    n.pending || forall t <- n.topics :: t in n.left || RightPlace(c, n, self, t)
  }

  ghost predicate Settled(c: Config, n: HubNode, self: string) {
    Handled(n) && forall t <- n.topics :: RightPlace(c, n, self, t)
  }

  /** A request goes to the owner according to any ring that has its signature. */
  ghost predicate WellAddressed(c: Config, r: Request) {
    forall ring :: c.sign(ring) == r.signature ==> Owner(c, ring, r.topic) == r.to
  }

  ghost predicate RolesFit(c: Config, s: System) {
    s.nodes.Keys == c.nodes && forall n <- s.nodes :: VisitedAreRight(c, s.nodes[n], n)
  }

  ghost predicate RequestsFit(c: Config, s: System) {
    forall r <- s.requests :: r.to in c.nodes && WellAddressed(c, r)
  }

  /** Roles depend on rings alone, not on their signatures. */
  lemma StepKeepsRoles(c: Config, s: System, a: Action)
    requires RolesFit(c, s)
    ensures RolesFit(c, Step(c, s, a))
  {
    if Enabled(s, a) {
      assert Apply(c, s, a).nodes.Keys == s.nodes.Keys;
    }
  }

  lemma StepKeepsRequests(c: Config, s: System, a: Action)
    requires SignaturesTell(c) && RequestsFit(c, s)
    ensures RequestsFit(c, Step(c, s, a))
  {
    if Enabled(s, a) && a.Send? {
      forall r <- MakeRequest(c, a.node, s.nodes[a.node].ring, s.nodes[a.node].ring, a.topic, a.gone)
        ensures WellAddressed(c, r)
      {
      }
    }
  }

  lemma {:induction false} RunKeepsRoles(c: Config, s: System, actions: seq<Action>)
    requires RolesFit(c, s)
    ensures RolesFit(c, Run(c, s, actions))
    decreases |actions|
  {
    if actions != [] {
      StepKeepsRoles(c, s, actions[0]);
      RunKeepsRoles(c, Step(c, s, actions[0]), actions[1..]);
    }
  }

  lemma {:induction false} RunKeepsRequests(c: Config, s: System, actions: seq<Action>)
    requires SignaturesTell(c) && RequestsFit(c, s)
    ensures RequestsFit(c, Run(c, s, actions))
    decreases |actions|
  {
    if actions != [] {
      StepKeepsRequests(c, s, actions[0]);
      RunKeepsRequests(c, Step(c, s, actions[0]), actions[1..]);
    }
  }

  // ----- what every run guarantees

  /** A node whose hub has handled its latest ring change has every topic in the right role. */
  lemma SettledNodesAreRight(c: Config, s: System, actions: seq<Action>, n: string, topic: string)
    requires IsInitial(c, s)
    requires var s' := Run(c, s, actions); n in s'.nodes && Handled(s'.nodes[n]) && topic in s'.nodes[n].topics
    ensures var node := Run(c, s, actions).nodes[n];
      node.topics[topic].isProxy <==> Owner(c, node.ring, topic) != n
  {
    RunKeepsRoles(c, s, actions);
    assert RightPlace(c, Run(c, s, actions).nodes[n], n, topic);
  }

  ghost predicate HasSettled(s: System, n: string, topic: string) {
    n in s.nodes && Handled(s.nodes[n]) && topic in s.nodes[n].topics
  }

  /** Two settled nodes with equal rings never both run the same topic as master. */
  lemma SingleMaster(c: Config, s: System, actions: seq<Action>, a: string, b: string, topic: string)
    requires IsInitial(c, s) && a != b
    requires var s' := Run(c, s, actions); HasSettled(s', a, topic) && HasSettled(s', b, topic)
    requires Run(c, s, actions).nodes[a].ring == Run(c, s, actions).nodes[b].ring
    ensures var s' := Run(c, s, actions); s'.nodes[a].topics[topic].isProxy || s'.nodes[b].topics[topic].isProxy
  {
    SettledNodesAreRight(c, s, actions, a, topic);
    SettledNodesAreRight(c, s, actions, b, topic);
  }

  /** In particular if the rings were built from the same members, listed in any order. */
  lemma SameMembersSingleMaster(c: Config, s: System, actions: seq<Action>, a: string, b: string,
                                ma: seq<string>, mb: seq<string>, topic: string)
    requires IsInitial(c, s) && a != b && multiset(ma) == multiset(mb)
    requires var s' := Run(c, s, actions); HasSettled(s', a, topic) && HasSettled(s', b, topic)
    requires Run(c, s, actions).nodes[a].ring == Build(c.hashing, ma)
    requires Run(c, s, actions).nodes[b].ring == Build(c.hashing, mb)
    ensures var s' := Run(c, s, actions); s'.nodes[a].topics[topic].isProxy || s'.nodes[b].topics[topic].isProxy
  {
    OrderIndependent(c.hashing, ma, mb);
    SingleMaster(c, s, actions, a, b, topic);
  }

  /**
   A request that passes the signature check is at the node which the receiver's own ring names as
   owner, whatever ring changes happened while it travelled. If that node is settled and has the
   topic loaded, it runs it as master.
   */
  lemma AcceptedAtOwner(c: Config, s: System, actions: seq<Action>, r: Request)
    requires SignaturesTell(c) && IsInitial(c, s)
    requires var s' := Run(c, s, actions); r in s'.requests && r.to in s'.nodes && Accepts(c, s'.nodes[r.to], r.to, r)
    ensures var n := Run(c, s, actions).nodes[r.to];
      && Owner(c, n.ring, r.topic) == r.to
      && (Handled(n) && r.topic in n.topics ==> !n.topics[r.topic].isProxy)
  {
    RunKeepsRequests(c, s, actions);
    if Handled(Run(c, s, actions).nodes[r.to]) && r.topic in Run(c, s, actions).nodes[r.to].topics {
      SettledNodesAreRight(c, s, actions, r.to, r.topic);
    }
  }

  /**
   Signing and addressing read the ring separately. If it changes in between, an accepted request is
   at the owner exactly when both rings name the same owner.
   */
  lemma SplitReads(c: Config, self: string, signed: Ring, addressed: Ring, n: HubNode, r: Request)
    requires SignaturesTell(c)
    requires r in MakeRequest(c, self, signed, addressed, r.topic, false) && Accepts(c, n, r.to, r)
    ensures Owner(c, n.ring, r.topic) == r.to <==> Owner(c, signed, r.topic) == Owner(c, addressed, r.topic)
  {
    assert n.ring == signed;
  }

  // ----- runs in which a topic moves between two other nodes

  /** A cluster of three whose rings, as at the start of a server, list all of them; nothing is loaded yet. */
  ghost predicate StartsWithAll(c: Config, s: System, self: string, a: string, b: string) {
    && IsInitial(c, s) && self != a && self != b && a != b && c.nodes == {self, a, b}
    && forall n <- s.nodes :: s.nodes[n].ring == Build(c.hashing, [self, a, b])
  }

  /** A topic that belongs to a, and to b once a is lost. */
  ghost predicate MovesToOther(c: Config, self: string, a: string, b: string, topic: string) {
    Owner(c, Build(c.hashing, [self, a, b]), topic) == a && Owner(c, Build(c.hashing, [self, b]), topic) == b
  }

  /** A hash that puts the one point of a before that of b before that of self, and every other name in front. */
  function OrderingHash(self: string, a: string, b: string): Hashing {
    Hashing(1, name => if name == "0" + a then 1 else if name == "0" + b then 2 else if name == "0" + self then 3 else 0)
  }

  lemma OnePoint(self: string, a: string, b: string, node: string)
    requires self != a && self != b && a != b && node in {self, a, b}
    ensures var h := OrderingHash(self, a, b);
      PointsOf(h, node, 1) == [Elem(node, if node == a then 1 else if node == b then 2 else 3)]
  {
    var h := OrderingHash(self, a, b);
    assert Itoa(0) == "0";
    assert forall x, y :: "0" + x == "0" + y ==> x == ("0" + x)[1..] == ("0" + y)[1..] == y;
    assert PointsOf(h, node, 0) == [];
  }

  lemma {:induction false} PointIn(h: Hashing, nodes: seq<string>, p: Elem)
    requires h.replicas == 1
    ensures p in Points(h, nodes) <==> exists i :: 0 <= i < |nodes| && p in PointsOf(h, nodes[i], 1)
  {
    if nodes != [] {
      PointIn(h, nodes[1..], p);
      assert Points(h, nodes) == PointsOf(h, nodes[0], 1) + Points(h, nodes[1..]);
      if p in Points(h, nodes[1..]) {
        var i :| 0 <= i < |nodes[1..]| && p in PointsOf(h, nodes[1..][i], 1);
        assert nodes[i + 1] == nodes[1..][i];
      }
      if i :| 0 < i < |nodes| && p in PointsOf(h, nodes[i], 1) {
        assert nodes[1..][i - 1] == nodes[i];
      }
    }
  }

  /** On a ring of such points a name in front of all of them belongs to the node with the least hash. */
  lemma FrontBelongsToLeast(self: string, a: string, b: string, nodes: seq<string>, least: string, topic: string)
    requires self != a && self != b && a != b && forall n <- nodes :: n in {self, a, b}
    requires least in nodes && topic !in {"0" + a, "0" + b, "0" + self}
    requires least == a || (least == b && a !in nodes)
    ensures Get(OrderingHash(self, a, b), Build(OrderingHash(self, a, b), nodes), topic) == least
  {
    var h := OrderingHash(self, a, b);
    var points, at, p := Build(h, nodes).points, Elem(topic, 0), Elem(least, if least == a then 1 else 2);
    BuildIsWellFormed(h, nodes);
    RingPoints(h, nodes);
    forall q | q in points ensures q == p || Before(p, q) { PointOfNodes(self, a, b, nodes, q); }
    assert p in points by {
      var i :| 0 <= i < |nodes| && nodes[i] == least;
      OnePoint(self, a, b, least);
      PointIn(h, nodes, p);
    }
    SuccessorIsNearest(points, at);
    NotBeforeZero(points, at, p);
    NearestIsUnique(at, points, Successor(points, at), p);
  }

  lemma PointOfNodes(self: string, a: string, b: string, nodes: seq<string>, q: Elem)
    requires self != a && self != b && a != b && (forall n <- nodes :: n in {self, a, b}) && q in Points(OrderingHash(self, a, b), nodes)
    ensures q.key in nodes && q.hash == if q.key == a then 1 else if q.key == b then 2 else 3
  {
    var h := OrderingHash(self, a, b);
    PointIn(h, nodes, q);
    var i :| 0 <= i < |nodes| && q in PointsOf(h, nodes[i], 1);
    assert nodes[i] in nodes;
    OnePoint(self, a, b, nodes[i]);
  }

  lemma NotBeforeZero(points: seq<Elem>, at: Elem, p: Elem)
    requires at.hash == 0 && (forall q <- points :: q.hash > 0) && p in points && forall q <- points :: q == p || Before(p, q)
    ensures forall q <- points :: !Nearer(at, q, p)
  {
    BeforeIsStrictTotalOrder();
  }

  /** Such topics exist: with this hash every topic with another name than the points is one. */
  lemma SomeTopicsMove(c: Config, self: string, a: string, b: string, topic: string)
    requires self != a && self != b && a != b && c.hashing == OrderingHash(self, a, b)
    requires topic !in {"0" + a, "0" + b, "0" + self}
    ensures MovesToOther(c, self, a, b, topic)
  {
    FrontBelongsToLeast(self, a, b, [self, a, b], a, topic);
    FrontBelongsToLeast(self, a, b, [self, b], b, topic);
  }

  lemma NextStep(c: Config, s: System, a: Action, rest: seq<Action>)
    ensures Run(c, s, [a] + rest) == Run(c, Step(c, s, a), rest)
  {
    assert ([a] + rest)[1..] == rest;
  }

  lemma FourSteps(c: Config, s: System, a0: Action, a1: Action, a2: Action, a3: Action)
    ensures Run(c, s, [a0, a1, a2, a3]) == Step(c, Step(c, Step(c, Step(c, s, a0), a1), a2), a3)
  {
    var s1 := Step(c, s, a0);
    var s2 := Step(c, s1, a1);
    var s3 := Step(c, s2, a2);
    assert [a0, a1, a2, a3] == [a0] + [a1, a2, a3] && [a1, a2, a3] == [a1] + [a2, a3];
    assert [a2, a3] == [a2] + [a3] && [a3] == [a3] + [];
    NextStep(c, s, a0, [a1, a2, a3]);
    NextStep(c, s1, a1, [a2, a3]);
    NextStep(c, s2, a2, [a3]);
    NextStep(c, s3, a3, []);
  }

  /** This node loads a topic of a as a proxy, a is lost and the topic moves to b: the node goes on naming a as master. */
  lemma MasterNodeIsStale(c: Config, s: System, self: string, a: string, b: string, topic: string)
    requires StartsWithAll(c, s, self, a, b) && MovesToOther(c, self, a, b, topic)
    ensures var s' := Run(c, s, [Join(self, topic), ChangeRing(self, [self, b]), TakeRingChange(self), VisitTopic(self, topic)]);
      HasSettled(s', self, topic) && s'.nodes[self].topics[topic] == Topic(true, a) && Owner(c, s'.nodes[self].ring, topic) == b
  {
    FourSteps(c, s, Join(self, topic), ChangeRing(self, [self, b]), TakeRingChange(self), VisitTopic(self, topic));
    var loaded := Step(c, s, Join(self, topic));
    assert loaded.nodes[self] == HubNode(Build(c.hashing, [self, a, b]), false, {}, map[topic := Topic(true, a)]);
    KeepsProxy(c, loaded, self, a, b, topic);
  }

  lemma KeepsProxy(c: Config, s: System, self: string, a: string, b: string, topic: string)
    requires self in s.nodes && Handled(s.nodes[self]) && s.nodes[self].topics == map[topic := Topic(true, a)]
    requires self != b && Owner(c, Build(c.hashing, [self, b]), topic) == b
    ensures var s' := Step(c, Step(c, Step(c, s, ChangeRing(self, [self, b])), TakeRingChange(self)), VisitTopic(self, topic));
      self in s'.nodes && s'.nodes[self] == HubNode(Build(c.hashing, [self, b]), false, {}, map[topic := Topic(true, a)])
  {
    var s1 := Step(c, s, ChangeRing(self, [self, b]));
    var s2 := Step(c, s1, TakeRingChange(self));
    assert s2.nodes[self] == HubNode(Build(c.hashing, [self, b]), false, {topic}, map[topic := Topic(true, a)]);
    assert RightPlace(c, s2.nodes[self], self, topic);
  }

  /**
   This node loses a between signing and addressing: the request goes to b, which has not lost a yet and
   takes it although by its own ring the topic belongs to a.
   */
  lemma SplitReadsMisroute(c: Config, s: System, self: string, a: string, b: string, topic: string)
    requires StartsWithAll(c, s, self, a, b) && MovesToOther(c, self, a, b, topic)
    ensures var addressing := Step(c, s, ChangeRing(self, [self, b]));
      && self in s.nodes && self in addressing.nodes && b in addressing.nodes
      && exists r :: && r in MakeRequest(c, self, s.nodes[self].ring, addressing.nodes[self].ring, topic, false)
                     && r.to == b && Accepts(c, addressing.nodes[b], b, r)
                     && Owner(c, addressing.nodes[b].ring, topic) == a
  {
    var addressing := Step(c, s, ChangeRing(self, [self, b]));
    var r := Request(self, b, topic, c.sign(Build(c.hashing, [self, a, b])), false);
    assert r in MakeRequest(c, self, s.nodes[self].ring, addressing.nodes[self].ring, topic, false);
  }

  ghost predicate MastersCurrent(c: Config, n: HubNode) {
    forall t <- n.topics :: n.topics[t].isProxy ==> n.topics[t].masterNode == Owner(c, n.ring, t)
  }

  /**
   The name of the master node is recorded when a proxy is loaded and never updated. After a ring
   change it is right for all proxies if and only if none of them moved between two other nodes.
   */
  lemma MasterNodeGoesStale(c: Config, n: HubNode, self: string, members: seq<string>)
    requires Settled(c, n, self) && MastersCurrent(c, n)
    ensures var changed := n.(ring := Build(c.hashing, members), pending := true);
      MastersCurrent(c, SettleHub(c, changed, self)) <==>
      forall t <- n.topics :: Owner(c, n.ring, t) == Owner(c, changed.ring, t)
                           || Owner(c, n.ring, t) == self || Owner(c, changed.ring, t) == self
  {
    var changed := n.(ring := Build(c.hashing, members), pending := true);
    var after := SettleHub(c, changed, self);
    if MastersCurrent(c, after) {
      forall t <- n.topics
        ensures Owner(c, n.ring, t) == Owner(c, changed.ring, t) || Owner(c, n.ring, t) == self || Owner(c, changed.ring, t) == self
      {
        assert RightPlace(c, n, self, t);
        assert t in after.topics ==> after.topics[t] == n.topics[t];
      }
    } else {
      var t :| t in after.topics && after.topics[t].isProxy && after.topics[t].masterNode != Owner(c, changed.ring, t);
      assert RightPlace(c, n, self, t);
    }
  }

  // ----- the hub of one node

  class Hub {
    const config: Config
    const self: string
    var ring: Ring
    var topics: map<string, Topic>
    var pending: bool

    constructor (config: Config, self: string, ring: Ring)
      ensures this.config == config && this.self == self && State() == HubNode(ring, false, {}, map[])
    {
      this.config, this.self, this.ring := config, self, ring;
      topics, pending := map[], false;
    }

    ghost function State(): HubNode
      reads this
    {
      HubNode(ring, pending, {}, topics)
    }

    /** A subscription request; a topic that is not loaded is created. */
    method HandleJoin(topic: string)
      modifies this`topics
      ensures State() == JoinTopic(config, old(State()), self, topic)
      ensures topic in topics && topics - {topic} == old(topics) - {topic}
      ensures topic in old(topics) ==> topics[topic] == old(topics)[topic]
      ensures topic !in old(topics) ==> var owner := Get(config.hashing, ring, topic);
        topics[topic] == Topic(owner != self, if owner != self then owner else "")
    {
      if topic !in topics {
        var isProxy := Get(config.hashing, ring, topic) != self;
        var masterNode := "";
        if isProxy {
          masterNode := Get(config.hashing, ring, topic);
        }
        topics := topics[topic := Topic(isProxy, masterNode)];
      }
    }

    method TopicUnreg(topic: string)
      modifies this`topics
      ensures State() == DropTopic(old(State()), topic)
      ensures topics == old(topics) - {topic}
    {
      if topic in topics {
        topics := topics - {topic};
      }
    }

    /** A rehash: visit the loaded topics in any order and drop those that now belong elsewhere. */
    method HandleRehash()
      modifies this`topics, this`pending
      ensures State() == SettleHub(config, old(State()), self)
      ensures forall t :: t in topics <==> t in old(topics) && old(topics)[t].isProxy == (Get(config.hashing, ring, t) != self)
      ensures forall t <- topics :: topics[t] == old(topics)[t]
    {
      ghost var was := State();
      var left := topics.Keys;
      while left != {}
        invariant left <= was.topics.Keys
        invariant topics == Swept(config, was, self, left)
        decreases |left|
      {
        var topic :| topic in left;
        SweepOne(config, was, self, left, topic);
        if topics[topic].isProxy != (Get(config.hashing, ring, topic) != self) {
          TopicUnreg(topic);
        }
        left := left - {topic};
      }
      pending := false;
      Survivors(config, was, self, State());
    }

    static lemma Survivors(c: Config, n: HubNode, self: string, after: HubNode)
      requires after.ring == n.ring && !after.pending && after.left == {} && after.topics == Swept(c, n, self, {})
      ensures after == SettleHub(c, n, self)
      ensures forall t :: t in after.topics <==> t in n.topics && n.topics[t].isProxy == (Get(c.hashing, n.ring, t) != self)
      ensures forall t <- after.topics :: after.topics[t] == n.topics[t]
    {
      assert after.topics == SettleHub(c, n, self).topics;
    }

    /** Route a request for a topic to the node that owns it, if that is another configured node. */
    method RouteToTopicMaster(topic: string, gone: bool) returns (sent: set<Request>)
      ensures sent == MakeRequest(config, self, ring, ring, topic, gone)
      ensures var owner := Get(config.hashing, ring, topic);
        sent == if owner != self && owner in config.nodes then {Request(self, owner, topic, config.sign(ring), gone)} else {}
    {
      var signature := config.sign(ring);
      var key := Get(config.hashing, ring, topic);
      if key == self || key !in config.nodes {
        return {};
      }
      return {Request(self, key, topic, signature, gone)};
    }

    /** The signature gate at the receiving node, and the switch on the type of the request behind it. */
    method TopicMaster(r: Request, kind: RequestType) returns (passed: bool, handedOn: bool, rejected: bool)
      ensures passed <==> Accepts(config, State(), self, r)
      ensures passed <==> r.from in config.nodes && r.from != self && !r.gone && r.signature == config.sign(ring)
      ensures handedOn <==> passed && !kind.OtherType?
      ensures rejected <==> r.from != self && r.from in config.nodes && !r.gone && !handedOn
    {
      passed, handedOn, rejected := false, false, false;
      if r.from == self || r.from !in config.nodes {
        return;
      }
      if r.gone {
        return;
      }
      if r.signature != config.sign(ring) {
        rejected := true;
        return;
      }
      passed := true;
      match kind
      case OtherType => rejected := true;
      case _ => handedOn := true;
    }
  }
}
