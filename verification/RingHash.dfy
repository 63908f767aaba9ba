/**
 The consistent hash ring that maps topic names to cluster nodes.

 A ring is the sorted list of its points. The hash function is a parameter: nothing here depends on
 which one is used.
 */
module RingHash {
  import opened Sorting

  datatype Elem = Elem(key: string, hash: nat)

  datatype Ring = Ring(points: seq<Elem>)

  /** The replica count and hash function that every ring of a cluster shares. */
  datatype Hashing = Hashing(replicas: nat, hash: string -> nat)

  const EMPTY := Ring([])

  predicate Before(a: Elem, b: Elem) {
    a.hash < b.hash || (a.hash == b.hash && Less(a.key, b.key))
  }

  lemma BeforeIsStrictTotalOrder()
    ensures StrictTotalOrder(Before)
  {
    LessIsStrictTotalOrder();
  }

  function Itoa(n: nat): string {
    if n < 10 then [('0' as int + n) as char] else Itoa(n / 10) + Itoa(n % 10)
  }

  /** The points of one node: replica i of `key` sits at the hash of the decimal i followed by the key. */
  function PointsOf(h: Hashing, key: string, replicas: nat): seq<Elem> {
    if replicas == 0 then []
    else PointsOf(h, key, replicas - 1) + [Elem(key, h.hash(Itoa(replicas - 1) + key))]
  }

  function Points(h: Hashing, keys: seq<string>): seq<Elem> {
    if keys == [] then [] else PointsOf(h, keys[0], h.replicas) + Points(h, keys[1..])
  }

  function Add(h: Hashing, ring: Ring, keys: seq<string>): Ring {
    BeforeIsStrictTotalOrder();
    Ring(Sort(Before, ring.points + Points(h, keys)))
  }

  /** The ring of a list of nodes, as `rehash` builds it. */
  function Build(h: Hashing, nodes: seq<string>): Ring {
    Add(h, EMPTY, nodes)
  }

  ghost predicate WellFormed(ring: Ring) {
    Sorted(Before, ring.points)
  }

  lemma BuildIsWellFormed(h: Hashing, nodes: seq<string>)
    ensures WellFormed(Build(h, nodes))
    ensures multiset(Build(h, nodes).points) == multiset(Points(h, nodes))
  {
    BeforeIsStrictTotalOrder();
    assert EMPTY.points + Points(h, nodes) == Points(h, nodes);
  }

  /** The first index from `i` on whose point is not before the given position. */
  function FirstFrom(points: seq<Elem>, at: Elem, i: nat): (r: nat)
    requires i <= |points|
    ensures i <= r <= |points|
    ensures forall k | i <= k < r :: Before(points[k], at)
    ensures r < |points| ==> !Before(points[r], at)
    decreases |points| - i
  {
    if i == |points| || !Before(points[i], at) then i else FirstFrom(points, at, i + 1)
  }

  /** The point that serves a position: the next one clockwise, the first one after the last. */
  function Successor(points: seq<Elem>, at: Elem): Elem
    requires points != []
  {
    var i := FirstFrom(points, at, 0);
    points[if i == |points| then 0 else i]
  }

  /** The node that owns a topic; "" on an empty ring. */
  function Get(h: Hashing, ring: Ring, topic: string): string {
    if ring.points == [] then "" else Successor(ring.points, Elem(topic, h.hash(topic))).key
  }

  /** The binary search that computes `Get`. */
  method GetBySearch(h: Hashing, ring: Ring, topic: string) returns (node: string)
    requires WellFormed(ring)
    ensures node == Get(h, ring, topic)
  {
    if |ring.points| == 0 {
      return "";
    }
    BeforeIsStrictTotalOrder();
    var at := Elem(topic, h.hash(topic));
    var lo, hi := 0, |ring.points|;
    while lo < hi
      invariant 0 <= lo <= hi <= |ring.points|
      invariant forall k | 0 <= k < lo :: Before(ring.points[k], at)
      invariant forall k | hi <= k < |ring.points| :: !Before(ring.points[k], at)
    {
      var mid := (lo + hi) / 2;
      if Before(ring.points[mid], at) {
        forall k | 0 <= k < mid ensures Before(ring.points[k], at) {
          assert !Before(ring.points[mid], ring.points[k]);
        }
        lo := mid + 1;
      } else {
        forall k | mid < k < |ring.points| ensures !Before(ring.points[k], at) {
          assert !Before(ring.points[k], ring.points[mid]);
        }
        hi := mid;
      }
    }
    var first := FirstFrom(ring.points, at, 0);
    assert lo < |ring.points| ==> !Before(ring.points[lo], at);
    assert first < |ring.points| ==> !Before(ring.points[first], at);
    assert first == lo;
    node := ring.points[if lo == |ring.points| then 0 else lo].key;
  }

  // ----- where a topic goes

  /** Going clockwise from `at`, point `a` is met strictly earlier than point `b`. */
  predicate Nearer(at: Elem, a: Elem, b: Elem) {
    if Before(a, at) == Before(b, at) then Before(a, b) else Before(b, at)
  }

  /** On a well-formed ring the successor is the point nearest to the position, going clockwise. */
  lemma SuccessorIsNearest(points: seq<Elem>, at: Elem)
    requires Sorted(Before, points) && points != []
    ensures Successor(points, at) in points
    ensures forall p <- points :: !Nearer(at, p, Successor(points, at))
  {
    BeforeIsStrictTotalOrder();
    var i := FirstFrom(points, at, 0);
    forall k | 0 <= k < |points|
      ensures !Nearer(at, points[k], Successor(points, at))
    {
      if i < |points| && k >= i {
        assert k == i || !Before(points[k], points[i]);
      } else if i == |points| && k > 0 {
        assert !Before(points[k], points[0]);
      }
    }
  }

  /** The nearest point is determined by the set of points. */
  lemma NearestIsUnique(at: Elem, points: seq<Elem>, a: Elem, b: Elem)
    requires a in points && forall p <- points :: !Nearer(at, p, a)
    requires b in points && forall p <- points :: !Nearer(at, p, b)
    ensures a == b
  {
    BeforeIsStrictTotalOrder();
  }

  lemma {:induction false} PointsBelong(h: Hashing, nodes: seq<string>, p: Elem)
    requires p in Points(h, nodes)
    ensures p.key in nodes
  {
    if p in PointsOf(h, nodes[0], h.replicas) {
      PointsOfBelong(h, nodes[0], h.replicas, p);
    } else {
      PointsBelong(h, nodes[1..], p);
    }
  }

  lemma {:induction false} PointsOfBelong(h: Hashing, key: string, replicas: nat, p: Elem)
    requires p in PointsOf(h, key, replicas)
    ensures p.key == key
  {
    if p in PointsOf(h, key, replicas - 1) {
      PointsOfBelong(h, key, replicas - 1, p);
    }
  }

  lemma {:induction false} PointsConcat(h: Hashing, a: seq<string>, b: seq<string>)
    ensures Points(h, a + b) == Points(h, a) + Points(h, b)
  {
    if a == [] {
      assert a + b == b;
    } else {
      assert (a + b)[1..] == a[1..] + b;
      PointsConcat(h, a[1..], b);
    }
  }

  lemma PointsWithout(h: Hashing, nodes: seq<string>, i: nat)
    requires i < |nodes|
    ensures multiset(Points(h, nodes)) ==
      multiset(PointsOf(h, nodes[i], h.replicas)) + multiset(Points(h, nodes[..i] + nodes[i + 1..]))
  {
    var tail := [nodes[i]] + nodes[i + 1..];
    assert nodes == nodes[..i] + tail && tail[1..] == nodes[i + 1..];
    PointsConcat(h, nodes[..i], tail);
    PointsConcat(h, nodes[..i], nodes[i + 1..]);
  }

  /** The bag of points depends only on the bag of nodes. */
  lemma {:induction false} PointsOfPermutation(h: Hashing, a: seq<string>, b: seq<string>)
    requires multiset(a) == multiset(b)
    ensures multiset(Points(h, a)) == multiset(Points(h, b))
    decreases |a|
  {
    if a == [] {
      assert |multiset(b)| == 0;
    } else {
      assert a[0] in multiset(b);
      var i :| 0 <= i < |b| && b[i] == a[0];
      var rest := b[..i] + b[i + 1..];
      PermutationRest(a, b, i);
      PointsOfPermutation(h, a[1..], rest);
      PointsWithout(h, b, i);
    }
  }

  lemma PermutationRest(a: seq<string>, b: seq<string>, i: nat)
    requires multiset(a) == multiset(b) && a != [] && i < |b| && b[i] == a[0]
    ensures multiset(a[1..]) == multiset(b[..i] + b[i + 1..])
  {
    assert a == [a[0]] + a[1..] && b == b[..i] + [b[i]] + b[i + 1..];
    assert multiset(b[..i] + b[i + 1..]) == multiset(b) - multiset{b[i]};
  }

  /** Nodes that list the same members in any order build the same ring. */
  lemma OrderIndependent(h: Hashing, a: seq<string>, b: seq<string>)
    requires multiset(a) == multiset(b)
    ensures Build(h, a) == Build(h, b)
  {
    PointsOfPermutation(h, a, b);
    BuildIsWellFormed(h, a);
    BuildIsWellFormed(h, b);
    BeforeIsStrictTotalOrder();
    SortedIsUnique(Before, Build(h, a).points, Build(h, b).points);
  }

  lemma RingPoints(h: Hashing, nodes: seq<string>)
    ensures forall p :: p in Build(h, nodes).points <==> p in Points(h, nodes)
    ensures nodes != [] && h.replicas > 0 ==> Build(h, nodes).points != []
  {
    var points := Build(h, nodes).points;
    BuildIsWellFormed(h, nodes);
    forall p ensures p in points <==> p in Points(h, nodes) {
      assert p in points <==> p in multiset(points);
      assert p in Points(h, nodes) <==> p in multiset(Points(h, nodes));
    }
    if nodes != [] && h.replicas > 0 {
      var p := PointsOf(h, nodes[0], h.replicas)[0];
      assert p in Points(h, nodes);
    }
  }

  /** Replica i of a node sits at the hash of the decimal i followed by the name of the node. */
  ghost predicate IsReplica(h: Hashing, node: string, i: nat, p: Elem) {
    p == Elem(node, h.hash(Itoa(i) + node))
  }

  lemma {:induction false} ReplicasOf(h: Hashing, node: string, replicas: nat, p: Elem)
    ensures p in PointsOf(h, node, replicas) <==> exists i: nat :: i < replicas && IsReplica(h, node, i, p)
  {
    if replicas > 0 {
      ReplicasOf(h, node, replicas - 1, p);
      assert p == Elem(node, h.hash(Itoa(replicas - 1) + node)) ==> IsReplica(h, node, replicas - 1, p);
    }
  }

  lemma {:induction false} ReplicasOfAll(h: Hashing, nodes: seq<string>, p: Elem)
    ensures p in Points(h, nodes) <==> p.key in nodes && exists i: nat :: i < h.replicas && IsReplica(h, p.key, i, p)
  {
    if nodes != [] {
      ReplicasOfAll(h, nodes[1..], p);
      ReplicasOf(h, nodes[0], h.replicas, p);
      assert nodes == [nodes[0]] + nodes[1..];
    }
  }

  /** A ring holds exactly the replicas of its nodes, by their hashes and, where these are equal, by the names of the nodes. */
  lemma RingExactly(h: Hashing, nodes: seq<string>)
    ensures var points := Build(h, nodes).points;
      && (forall p :: p in points <==> p.key in nodes && exists i: nat :: i < h.replicas && IsReplica(h, p.key, i, p))
      && (forall i, j | 0 <= i < j < |points| ::
            points[i].hash < points[j].hash
            || (points[i].hash == points[j].hash && (points[i].key == points[j].key || Less(points[i].key, points[j].key))))
  {
    var points := Build(h, nodes).points;
    BuildIsWellFormed(h, nodes);
    RingPoints(h, nodes);
    forall p { ReplicasOfAll(h, nodes, p); }
    forall i, j | 0 <= i < j < |points| ensures !Before(points[j], points[i]) { }
    LessIsStrictTotalOrder();
  }

  /** A topic is owned by one of the nodes of the ring. */
  lemma OwnerIsMember(h: Hashing, nodes: seq<string>, topic: string)
    requires nodes != [] && h.replicas > 0
    ensures Get(h, Build(h, nodes), topic) in nodes
  {
    var at := Elem(topic, h.hash(topic));
    BuildIsWellFormed(h, nodes);
    RingPoints(h, nodes);
    SuccessorIsNearest(Build(h, nodes).points, at);
    PointsBelong(h, nodes, Successor(Build(h, nodes).points, at));
  }

  /** Adding points to a ring changes the successor of a position only to one of the added points. */
  lemma SuccessorOfLargerRing(small: seq<Elem>, large: seq<Elem>, at: Elem)
    requires Sorted(Before, small) && Sorted(Before, large) && small != [] && large != []
    requires forall p <- small :: p in large
    ensures Successor(large, at) in small ==> Successor(large, at) == Successor(small, at)
  {
    SuccessorIsNearest(large, at);
    SuccessorIsNearest(small, at);
    if Successor(large, at) in small {
      NearestIsUnique(at, small, Successor(large, at), Successor(small, at));
    }
  }

  /**
   Consistency of the hash: when one node joins, a topic either moves to that node or stays where it
   was. Read backwards: when a node leaves, only its own topics move.
   */
  lemma OnlyNewcomerGains(h: Hashing, nodes: seq<string>, newcomer: string, topic: string)
    requires nodes != [] && h.replicas > 0
    ensures var owner := Get(h, Build(h, nodes + [newcomer]), topic);
      owner == newcomer || owner == Get(h, Build(h, nodes), topic)
  {
    var at := Elem(topic, h.hash(topic));
    var small, large := Build(h, nodes).points, Build(h, nodes + [newcomer]).points;
    BuildIsWellFormed(h, nodes);
    BuildIsWellFormed(h, nodes + [newcomer]);
    OneMoreNode(h, nodes, newcomer);
    SuccessorOfLargerRing(small, large, at);
    SuccessorIsNearest(large, at);
  }

  /** A new node adds its own points to the ring. */
  lemma OneMoreNode(h: Hashing, nodes: seq<string>, newcomer: string)
    requires nodes != [] && h.replicas > 0
    ensures var small, large := Build(h, nodes).points, Build(h, nodes + [newcomer]).points;
      && small != [] && large != [] && (forall p <- small :: p in large)
      && forall p <- large :: p in small || p.key == newcomer
  {
    RingPoints(h, nodes);
    RingPoints(h, nodes + [newcomer]);
    PointsConcat(h, nodes, [newcomer]);
    forall p | p in Points(h, [newcomer]) ensures p.key == newcomer {
      PointsBelong(h, [newcomer], p);
    }
  }
}
