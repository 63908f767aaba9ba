/** Live sessions: a map of all of them and a list of the long-poll ones, most recently used first. */
module SessionStore {
  import opened Options

  /** Session and user ids, which are only ever compared. */
  type Sid = nat
  type Uid = nat

  datatype Proto = WebSock | LongPoll | Multiplex | Grpc

  /** A session; `serial` is its identity, the other fields but `sid` and `proto` may change. */
  datatype Session = Session(serial: nat, sid: Sid, proto: Proto, uid: Uid, lastTouched: int)

  // ----- lists

  /** The list without the sessions of the given serials, in the same order. */
  function Except(list: seq<Session>, gone: set<nat>): seq<Session> {
    if list == [] then []
    else
      var last := list[|list| - 1];
      Except(list[..|list| - 1], gone) + if last.serial in gone then [] else [last]
  }

  ghost predicate Distinct(list: seq<Session>) {
    forall i, j | 0 <= i < j < |list| :: list[i].serial != list[j].serial
  }

  ghost predicate NewestFirst(list: seq<Session>) {
    forall i, j | 0 <= i < j < |list| :: list[i].lastTouched >= list[j].lastTouched
  }

  lemma {:induction false} ExceptHas(list: seq<Session>, gone: set<nat>)
    ensures forall s :: s in Except(list, gone) <==> s in list && s.serial !in gone
  {
    if list != [] {
      var init, last := list[..|list| - 1], list[|list| - 1];
      ExceptHas(init, gone);
      assert list == init + [last];
    }
  }

  lemma {:induction false} ExceptKeepsOrder(list: seq<Session>, gone: set<nat>)
    ensures Distinct(list) ==> Distinct(Except(list, gone))
    ensures NewestFirst(list) ==> NewestFirst(Except(list, gone))
  {
    if list != [] {
      var init := list[..|list| - 1];
      ExceptKeepsOrder(init, gone);
      ExceptHas(init, gone);
      forall i | 0 <= i < |Except(init, gone)| ensures exists k :: 0 <= k < |init| && list[k] == Except(init, gone)[i] {
        assert Except(init, gone)[i] in init;
      }
    }
  }

  lemma {:induction false} ExceptNone(list: seq<Session>, gone: set<nat>)
    requires forall i | 0 <= i < |list| :: list[i].serial !in gone
    ensures Except(list, gone) == list
  {
    if list != [] {
      ExceptNone(list[..|list| - 1], gone);
    }
  }

  lemma {:induction false} ExceptTwice(list: seq<Session>, gone: set<nat>, more: set<nat>)
    ensures Except(Except(list, gone), more) == Except(list, gone + more)
  {
    if list != [] {
      var init, last := list[..|list| - 1], list[|list| - 1];
      ExceptTwice(init, gone, more);
      var rest := Except(init, gone);
      if last.serial in gone {
        assert rest + [] == rest;
      } else {
        assert (rest + [last])[..|rest|] == rest;
      }
    }
  }

  /** Dropping a tail is dropping its members, if none of them is also in front of it. */
  lemma {:induction false} TailIsExcept(list: seq<Session>, n: nat, gone: set<nat>)
    requires n <= |list|
    requires forall i | 0 <= i < n :: list[i].serial !in gone
    requires forall i | n <= i < |list| :: list[i].serial in gone
    ensures Except(list, gone) == list[..n]
  {
    if n == |list| {
      assert list[..n] == list;
      ExceptNone(list, gone);
    } else {
      var init := list[..|list| - 1];
      TailIsExcept(init, n, gone);
      assert init[..n] == list[..n] && Except(init, gone) + [] == Except(init, gone);
    }
  }

  function Serials(list: seq<Session>): set<nat> {
    set s | s in list :: s.serial
  }

  function Stale(list: seq<Session>, cutoff: int): set<nat> {
    set s | s in list && s.lastTouched < cutoff :: s.serial
  }

  lemma StaleAt(list: seq<Session>, cutoff: int, i: nat)
    requires Distinct(list) && i < |list|
    ensures list[i].serial in Stale(list, cutoff) <==> list[i].lastTouched < cutoff
  {
    if list[i].serial in Stale(list, cutoff) {
      var s :| s in list && s.lastTouched < cutoff && s.serial == list[i].serial;
      var j :| 0 <= j < |list| && list[j] == s;
    }
  }

  /**
   Stopping at the first session from the back that is not stale finds all the stale ones: what is
   left is the list without them. This needs the list to be in order.
   */
  lemma EarlyExitIsComplete(list: seq<Session>, n: nat, cutoff: int)
    requires NewestFirst(list) && Distinct(list) && n <= |list|
    requires forall i | n <= i < |list| :: list[i].lastTouched < cutoff
    requires n > 0 ==> list[n - 1].lastTouched >= cutoff
    ensures list[..n] == Except(list, Stale(list, cutoff))
  {
    forall i | 0 <= i < |list| ensures list[i].serial in Stale(list, cutoff) <==> i >= n { StaleAt(list, cutoff, i); }
    TailIsExcept(list, n, Stale(list, cutoff));
  }

  lemma TailIsStale(list: seq<Session>, n: nat, cutoff: int)
    requires n <= |list| && forall i | 0 <= i < |list| :: list[i].lastTouched < cutoff <==> i >= n
    ensures forall s :: s in list[n..] <==> s in list && s.lastTouched < cutoff
    ensures Serials(list[n..]) == Stale(list, cutoff)
  {
    forall s | s in list && s.lastTouched < cutoff ensures s in list[n..] {
      var j :| 0 <= j < |list| && list[j] == s;
      assert list[n..][j - n] == s;
    }
  }

  // ----- map and list

  datatype Index = Index(sessions: map<Sid, Session>, lru: seq<Session>)

  /** The list holds exactly the long-poll sessions of the map, each once. */
  ghost predicate Agree(x: Index) {
    && Distinct(x.lru)
    && (forall sid | sid in x.sessions :: x.sessions[sid].sid == sid)
    && (forall i, j | i in x.sessions && j in x.sessions :: x.sessions[i].serial == x.sessions[j].serial ==> i == j)
    && (forall s :: s in x.lru <==> s.proto == LongPoll && s.sid in x.sessions && x.sessions[s.sid] == s)
  }

  ghost predicate Good(x: Index) {
    Agree(x) && NewestFirst(x.lru)
  }

  /** The clock has not gone back behind the last use of a session. */
  ghost predicate ClockIsAt(x: Index, now: int) {
    forall s | s in x.lru :: s.lastTouched <= now
  }

  /** The index without the sessions of some serials. */
  function Without(x: Index, gone: set<nat>): Index {
    Index(map sid | sid in x.sessions && x.sessions[sid].serial !in gone :: x.sessions[sid], Except(x.lru, gone))
  }

  lemma WithoutIsGood(x: Index, gone: set<nat>, y: Index)
    requires Good(x) && y == Without(x, gone)
    ensures Good(y)
  {
    ExceptHas(x.lru, gone);
    ExceptKeepsOrder(x.lru, gone);
  }

  lemma WithoutKeepsClock(x: Index, gone: set<nat>, now: int)
    requires ClockIsAt(x, now)
    ensures ClockIsAt(Without(x, gone), now)
  {
    ExceptHas(x.lru, gone);
  }

  lemma WithoutOneMore(x: Index, gone: set<nat>, s: Session)
    requires Agree(x) && s.sid in x.sessions && x.sessions[s.sid] == s
    ensures var y := Without(x, gone); Without(x, gone + {s.serial}) == Index(y.sessions - {s.sid}, Except(y.lru, {s.serial}))
  {
    ExceptTwice(x.lru, gone, {s.serial});
    var left, right := Without(x, gone + {s.serial}).sessions, Without(x, gone).sessions - {s.sid};
    assert forall sid :: sid in left <==> sid in right;
  }

  function Added(x: Index, s: Session): Index {
    Index(x.sessions[s.sid := s], if s.proto == LongPoll then [s] + x.lru else x.lru)
  }

  /** All serials in use are below n. */
  ghost predicate SerialsBelow(x: Index, n: nat) {
    forall sid | sid in x.sessions :: x.sessions[sid].serial < n
  }

  ghost predicate IsNew(x: Index, s: Session) {
    s.sid !in x.sessions && forall sid | sid in x.sessions :: x.sessions[sid].serial != s.serial
  }

  lemma AddedIsGood(x: Index, s: Session, y: Index)
    requires Good(x) && IsNew(x, s) && ClockIsAt(x, s.lastTouched) && y == Added(x, s)
    ensures Good(y) && ClockIsAt(y, s.lastTouched)
  {
    AddedAgrees(x, s);
    assert NewestFirst(y.lru) by {
      forall i | 0 <= i < |x.lru| ensures x.lru[i].lastTouched <= s.lastTouched { assert x.lru[i] in x.lru; }
    }
  }

  lemma AddedAgrees(x: Index, s: Session)
    requires Agree(x) && IsNew(x, s)
    ensures Agree(Added(x, s))
  {
    var y := Added(x, s);
    assert Distinct(y.lru) by {
      forall i | 0 <= i < |x.lru| ensures x.lru[i].serial != s.serial { assert x.lru[i] in x.lru; }
    }
    forall a ensures a in y.lru <==> a.proto == LongPoll && a.sid in y.sessions && y.sessions[a.sid] == a {
      assert a in y.lru <==> a in x.lru || (a == s && s.proto == LongPoll);
    }
  }

  function Trimmed(x: Index, cutoff: int): Index {
    Without(x, Stale(x.lru, cutoff))
  }

  /** The index without the sessions from position n of the list on. */
  function Dropped(x: Index, n: nat): Index
    requires n <= |x.lru|
  {
    Index(Without(x, Serials(x.lru[n..])).sessions, x.lru[..n])
  }

  lemma NothingDropped(x: Index)
    ensures Dropped(x, |x.lru|) == x
  {
    assert x.lru[..|x.lru|] == x.lru && x.lru[|x.lru|..] == [];
    assert Without(x, {}).sessions == x.sessions;
  }

  lemma DropOneMore(x: Index, n: nat)
    requires Agree(x) && 0 < n <= |x.lru|
    ensures Dropped(x, n - 1) == Index(Dropped(x, n).sessions - {x.lru[n - 1].sid}, x.lru[..n][..n - 1])
    ensures x.lru[n - 1..] == [x.lru[n - 1]] + x.lru[n..]
  {
    var s, tail := x.lru[n - 1], x.lru[n..];
    assert s in x.lru && x.lru[n - 1..] == [s] + tail && x.lru[..n][..n - 1] == x.lru[..n - 1];
    assert Serials([s] + tail) == Serials(tail) + {s.serial};
    WithoutOneMore(x, Serials(tail), s);
  }

  /** Part-way through expiry: the sessions from position n on are out. */
  ghost predicate Expiring(x: Index, n: nat, cutoff: int, y: Index, expired: seq<Session>) {
    && n <= |x.lru| && y == Dropped(x, n)
    && (forall i | n <= i < |x.lru| :: x.lru[i].lastTouched < cutoff)
    && (forall s :: s in expired <==> s in x.lru[n..])
  }

  lemma ExpireOne(x: Index, n: nat, cutoff: int, y: Index, expired: seq<Session>)
    requires Agree(x) && Expiring(x, n, cutoff, y, expired) && y.lru != [] && y.lru[|y.lru| - 1].lastTouched < cutoff
    ensures var s := y.lru[|y.lru| - 1];
      0 < n && Expiring(x, n - 1, cutoff, Index(y.sessions - {s.sid}, y.lru[..|y.lru| - 1]), expired + [s])
  {
    DropOneMore(x, n);
  }

  lemma ExpireDone(x: Index, n: nat, cutoff: int, y: Index, expired: seq<Session>)
    requires Good(x) && Expiring(x, n, cutoff, y, expired) && (y.lru != [] ==> y.lru[|y.lru| - 1].lastTouched >= cutoff)
    ensures y == Trimmed(x, cutoff)
    ensures forall s :: s in expired <==> s in x.lru && s.lastTouched < cutoff
  {
    EarlyExitIsComplete(x.lru, n, cutoff);
    TailIsStale(x.lru, n, cutoff);
  }

  /** A new session, and the stale ones gone. */
  function Opened(x: Index, s: Session, lifeTime: nat): Index {
    Trimmed(Added(x, s), s.lastTouched - lifeTime)
  }

  lemma StaleIsStale(x: Index, cutoff: int, sid: Sid)
    requires Agree(x) && sid in x.sessions
    ensures x.sessions[sid].serial in Stale(x.lru, cutoff) <==>
      x.sessions[sid].proto == LongPoll && x.sessions[sid].lastTouched < cutoff
  {
    var s := x.sessions[sid];
    if s.serial in Stale(x.lru, cutoff) {
      var r :| r in x.lru && r.lastTouched < cutoff && r.serial == s.serial;
      assert x.sessions[r.sid] == r;
    }
  }

  lemma OpenedIsGood(x: Index, s: Session, lifeTime: nat, y: Index)
    requires Good(x) && IsNew(x, s) && ClockIsAt(x, s.lastTouched) && y == Opened(x, s, lifeTime)
    ensures Good(y) && ClockIsAt(y, s.lastTouched)
  {
    AddedIsGood(x, s, Added(x, s));
    var stale := Stale(Added(x, s).lru, s.lastTouched - lifeTime);
    WithoutIsGood(Added(x, s), stale, y);
    WithoutKeepsClock(Added(x, s), stale, s.lastTouched);
  }

  /**
   Opening a session drops exactly the long-poll sessions last used before the cutoff; every other
   session stays as it was, the new one included.
   */
  lemma OpeningDropsTheStale(x: Index, s: Session, lifeTime: nat, sid: Sid)
    requires Good(x) && IsNew(x, s) && ClockIsAt(x, s.lastTouched)
    ensures var y := Opened(x, s, lifeTime);
      && Good(y) && ClockIsAt(y, s.lastTouched)
      && s.sid in y.sessions && y.sessions[s.sid] == s
      && (sid in x.sessions ==>
            (sid in y.sessions <==> !(x.sessions[sid].proto == LongPoll && x.sessions[sid].lastTouched < s.lastTouched - lifeTime)))
      && (sid in y.sessions && sid != s.sid ==> sid in x.sessions && y.sessions[sid] == x.sessions[sid])
  {
    OpenedIsGood(x, s, lifeTime, Opened(x, s, lifeTime));
    AddedAgrees(x, s);
    StaleIsStale(Added(x, s), s.lastTouched - lifeTime, s.sid);
    if sid in x.sessions {
      StaleIsStale(Added(x, s), s.lastTouched - lifeTime, sid);
    }
  }

  lemma OpenedKeepsSerials(x: Index, s: Session, lifeTime: nat, n: nat, y: Index)
    requires SerialsBelow(x, n) && s.serial < n && y == Opened(x, s, lifeTime)
    ensures SerialsBelow(y, n)
  {
  }

  function Touched(x: Index, s: Session, now: int): Index {
    var touched := s.(lastTouched := now);
    Index(x.sessions[s.sid := touched], [touched] + Except(x.lru, {s.serial}))
  }

  lemma TouchedIsGood(x: Index, s: Session, now: int, y: Index)
    requires Good(x) && s in x.lru && ClockIsAt(x, now) && y == Touched(x, s, now)
    ensures Good(y) && ClockIsAt(y, now)
  {
    var touched := s.(lastTouched := now);
    WithoutIsGood(x, {s.serial}, Without(x, {s.serial}));
    WithoutKeepsClock(x, {s.serial}, now);
    var left, right := Added(Without(x, {s.serial}), touched).sessions, Touched(x, s, now).sessions;
    assert left == right by { assert forall sid :: sid in left <==> sid in right; }
    AddedIsGood(Without(x, {s.serial}), touched, y);
  }

  /** A session is taken out: its id from the map, and its own element from the list. */
  function Deleted(x: Index, s: Session): Index {
    Index(x.sessions - {s.sid}, if s.proto == LongPoll then Except(x.lru, {s.serial}) else x.lru)
  }

  /** Whatever of `s` is still stored is a version of s: it has the same id and protocol. */
  ghost predicate IsVersion(x: Index, s: Session) {
    forall sid | sid in x.sessions :: x.sessions[sid].serial == s.serial ==> sid == s.sid && x.sessions[sid].proto == s.proto
  }

  /**
   Deleting forgets whatever session has the id; map and list go on agreeing unless that is another
   session, and a long-poll one.
   */
  lemma DeletedIsGoodExactly(x: Index, s: Session)
    requires Good(x) && IsVersion(x, s)
    ensures Good(Deleted(x, s)) <==>
      !(s.sid in x.sessions && x.sessions[s.sid].serial != s.serial && x.sessions[s.sid].proto == LongPoll)
    ensures forall now :: ClockIsAt(x, now) ==> ClockIsAt(Deleted(x, s), now)
  {
    ExceptHas(x.lru, {s.serial});
    ExceptKeepsOrder(x.lru, {s.serial});
    if s.sid in x.sessions && x.sessions[s.sid].proto == LongPoll && x.sessions[s.sid].serial != s.serial {
      assert x.sessions[s.sid] in Deleted(x, s).lru;
    }
  }

  /** One session replaced by another version of itself, in place. */
  function Swapped(list: seq<Session>, s: Session, t: Session): seq<Session> {
    seq(|list|, i requires 0 <= i < |list| => if list[i] == s then t else list[i])
  }

  function SignedIn(x: Index, s: Session, uid: Uid): Index {
    Index(x.sessions[s.sid := s.(uid := uid)], Swapped(x.lru, s, s.(uid := uid)))
  }

  lemma SwappedHas(list: seq<Session>, s: Session, t: Session, x: Session)
    ensures x in Swapped(list, s, t) <==> (x in list && x != s) || (x == t && s in list)
  {
    var after := Swapped(list, s, t);
    if x in list && x != s {
      var i :| 0 <= i < |list| && list[i] == x;
      assert after[i] == x;
    }
    if x == t && s in list {
      var i :| 0 <= i < |list| && list[i] == s;
      assert after[i] == x;
    }
  }

  lemma SignedInIsGood(x: Index, s: Session, uid: Uid)
    requires Good(x) && s.sid in x.sessions && x.sessions[s.sid] == s
    ensures Good(SignedIn(x, s, uid))
    ensures forall now :: ClockIsAt(x, now) ==> ClockIsAt(SignedIn(x, s, uid), now)
  {
    forall a { SwappedHas(x.lru, s, s.(uid := uid), a); }
  }

  predicate Evictable(s: Session, uid: Uid, skip: Sid) {
    s.uid == uid && s.proto != Multiplex && s.sid != skip
  }

  /** The sessions of a user that have to go, except those still to be looked at. */
  function Leaving(x: Index, todo: set<Sid>, uid: Uid, skip: Sid): set<nat> {
    set sid | sid in x.sessions && sid !in todo && Evictable(x.sessions[sid], uid, skip) :: x.sessions[sid].serial
  }

  function Evicted(x: Index, uid: Uid, skip: Sid): Index {
    Without(x, Leaving(x, {}, uid, skip))
  }

  lemma LeavingNext(x: Index, todo: set<Sid>, uid: Uid, skip: Sid, sid: Sid)
    requires Agree(x) && sid in todo && todo <= x.sessions.Keys
    ensures var gone, more := Leaving(x, todo, uid, skip), Leaving(x, todo - {sid}, uid, skip);
      && sid in Without(x, gone).sessions && Without(x, gone).sessions[sid] == x.sessions[sid]
      && more == (if Evictable(x.sessions[sid], uid, skip) then gone + {x.sessions[sid].serial} else gone)
  {
    if x.sessions[sid].serial in Leaving(x, todo, uid, skip) {
      assert false;
    }
  }

  /** Only long-poll sessions are in the list. */
  lemma NotListed(x: Index, gone: set<nat>, s: Session)
    requires Agree(x) && s.sid in x.sessions && x.sessions[s.sid] == s && s.proto != LongPoll
    ensures Except(Without(x, gone).lru, {s.serial}) == Without(x, gone).lru
  {
    var rest := Except(x.lru, gone);
    ExceptHas(x.lru, gone);
    forall i | 0 <= i < |rest| ensures rest[i].serial != s.serial {
      assert rest[i] in x.lru;
    }
    ExceptNone(rest, {s.serial});
  }

  /** Evicting a user leaves exactly the sessions of other users, the skipped one and those that carry other sessions. */
  lemma EvictsExactly(x: Index, uid: Uid, skip: Sid, sid: Sid)
    requires Agree(x)
    ensures var y := Evicted(x, uid, skip);
      && (sid in y.sessions <==>
            sid in x.sessions && (x.sessions[sid].uid != uid || x.sessions[sid].proto == Multiplex || sid == skip))
      && (sid in y.sessions ==> y.sessions[sid] == x.sessions[sid])
  {
    if sid in x.sessions && x.sessions[sid].serial in Leaving(x, {}, uid, skip) {
      var other :| other in x.sessions && Evictable(x.sessions[other], uid, skip) && x.sessions[other].serial == x.sessions[sid].serial;
      assert other == sid;
    }
  }

  /** A session that signs in as a user goes when that user is evicted, and no other session goes because of it. */
  lemma SignedInIsEvicted(x: Index, s: Session, uid: Uid, skip: Sid, sid: Sid)
    requires Good(x) && s.sid in x.sessions && x.sessions[s.sid] == s && s.proto != Multiplex && skip != s.sid
    ensures var before, after := Evicted(x, uid, skip), Evicted(SignedIn(x, s, uid), uid, skip);
      s.sid !in after.sessions && (sid != s.sid ==> (sid in after.sessions <==> sid in before.sessions))
  {
    SignedInIsGood(x, s, uid);
    EvictsExactly(SignedIn(x, s, uid), uid, skip, s.sid);
    EvictsExactly(SignedIn(x, s, uid), uid, skip, sid);
    EvictsExactly(x, uid, skip, sid);
  }

  lemma NoneLeaving(x: Index, uid: Uid, skip: Sid)
    ensures Without(x, Leaving(x, x.sessions.Keys, uid, skip)) == x
  {
    assert Leaving(x, x.sessions.Keys, uid, skip) == {};
    ExceptNone(x.lru, {});
    assert Without(x, {}).sessions == x.sessions;
  }

  // ----- runs

  /** `past` lists every session ever opened, as it was then: the position of a session is its serial. */
  datatype State = State(index: Index, past: seq<Session>, clock: int)

  datatype Action =
    | Open(sid: Sid, proto: Proto, now: int)
    | Look(sid: Sid, now: int)
    | Remove(serial: nat)
    | Login(sid: Sid, uid: Uid)
    | Evict(uid: Uid, skip: Sid)

  /**
   The clock does not go back. The id of a long-poll session is generated and so has never been used;
   other ids may come back. Any session ever opened may be removed, at any time and again.
   */
  predicate Enabled(s: State, a: Action) {
    match a
    case Open(sid, proto, now) =>
      && s.clock <= now && sid !in s.index.sessions
      && (proto == LongPoll ==> forall i | 0 <= i < |s.past| :: s.past[i].sid != sid)
    case Look(sid, now) => s.clock <= now && sid in s.index.sessions
    case Remove(serial) => serial < |s.past|
    case Login(sid, _) => sid in s.index.sessions
    case Evict(_, _) => true
  }

  function Step(s: State, a: Action, lifeTime: nat): State {
    if !Enabled(s, a) then s
    else
      match a
      case Open(sid, proto, now) =>
        var made := Session(|s.past|, sid, proto, 0, now);
        State(Opened(s.index, made, lifeTime), s.past + [made], now)
      case Look(sid, now) =>
        if s.index.sessions[sid].proto == LongPoll then State(Touched(s.index, s.index.sessions[sid], now), s.past, now) else s
      case Remove(serial) => s.(index := Deleted(s.index, s.past[serial]))
      case Login(sid, uid) => s.(index := SignedIn(s.index, s.index.sessions[sid], uid))
      case Evict(uid, skip) => s.(index := Evicted(s.index, uid, skip))
  }

  function Run(actions: seq<Action>, lifeTime: nat): State {
    if actions == [] then State(Index(map[], []), [], 0)
    else Step(Run(actions[..|actions| - 1], lifeTime), actions[|actions| - 1], lifeTime)
  }

  /** A session stored under an id is a version of one that was opened, the latest one with the id. */
  ghost predicate RecordedAt(s: Session, sid: Sid, past: seq<Session>) {
    && s.serial < |past| && past[s.serial].sid == sid && past[s.serial].proto == s.proto
    && forall i | 0 <= i < |past| :: past[i].sid == sid ==> i <= s.serial
  }

  ghost predicate Recorded(x: Index, past: seq<Session>) {
    forall sid | sid in x.sessions :: RecordedAt(x.sessions[sid], sid, past)
  }

  /** The id of a long-poll session was new when the session was opened. */
  ghost predicate PollIdsAreNew(past: seq<Session>) {
    forall i, j | 0 <= i < j < |past| :: past[j].proto == LongPoll ==> past[i].sid != past[j].sid
  }

  ghost predicate Numbered(past: seq<Session>) {
    forall i | 0 <= i < |past| :: past[i].serial == i
  }

  ghost predicate Invariant(s: State) {
    && Good(s.index) && ClockIsAt(s.index, s.clock)
    && Recorded(s.index, s.past) && PollIdsAreNew(s.past) && Numbered(s.past)
  }

  /** Removing a session of the past cannot hit a long-poll session of the present. */
  lemma RemoveKeeps(s: State, serial: nat)
    requires Invariant(s) && serial < |s.past|
    ensures Invariant(s.(index := Deleted(s.index, s.past[serial])))
  {
    var gone := s.past[serial];
    if gone.sid in s.index.sessions {
      assert RecordedAt(s.index.sessions[gone.sid], gone.sid, s.past);
    }
    RecordedVersions(s.index, s.past, serial);
    DeletedIsGoodExactly(s.index, gone);
    IndexStepKeeps(s, Deleted(s.index, gone), s.clock);
  }

  lemma RecordedVersions(x: Index, past: seq<Session>, serial: nat)
    requires Recorded(x, past) && Numbered(past) && serial < |past|
    ensures IsVersion(x, past[serial])
  {
    forall sid | sid in x.sessions && x.sessions[sid].serial == serial
      ensures sid == past[serial].sid && x.sessions[sid].proto == past[serial].proto
    {
      assert RecordedAt(x.sessions[sid], sid, past);
    }
  }

  lemma NewSerial(x: Index, past: seq<Session>, s: Session)
    requires Recorded(x, past) && s.serial == |past| && s.sid !in x.sessions
    ensures IsNew(x, s)
  {
    forall sid | sid in x.sessions ensures x.sessions[sid].serial != s.serial {
      assert RecordedAt(x.sessions[sid], sid, past);
    }
  }

  lemma OpenKeeps(s: State, sid: Sid, proto: Proto, now: int, lifeTime: nat)
    requires Invariant(s) && Enabled(s, Open(sid, proto, now))
    ensures Invariant(Step(s, Open(sid, proto, now), lifeTime))
  {
    var made := Session(|s.past|, sid, proto, 0, now);
    NewSerial(s.index, s.past, made);
    OpenedIsGood(s.index, made, lifeTime, Opened(s.index, made, lifeTime));
    OpenedIsRecorded(s.index, s.past, made, lifeTime);
    HistoryGrows(s.past, made);
  }

  lemma HistoryGrows(past: seq<Session>, made: Session)
    requires PollIdsAreNew(past) && Numbered(past) && made.serial == |past|
    requires made.proto == LongPoll ==> forall i | 0 <= i < |past| :: past[i].sid != made.sid
    ensures PollIdsAreNew(past + [made]) && Numbered(past + [made])
  {
  }

  lemma OpenedIsRecorded(x: Index, past: seq<Session>, made: Session, lifeTime: nat)
    requires Recorded(x, past) && made.serial == |past| && made.sid !in x.sessions
    ensures Recorded(Opened(x, made, lifeTime), past + [made])
  {
    var y := Opened(x, made, lifeTime);
    forall sid | sid in y.sessions ensures RecordedAt(y.sessions[sid], sid, past + [made]) {
      if sid != made.sid {
        assert RecordedAt(x.sessions[sid], sid, past);
        StaysRecordedAt(x.sessions[sid], sid, past, made);
      }
    }
  }

  lemma StaysRecordedAt(s: Session, sid: Sid, past: seq<Session>, made: Session)
    requires RecordedAt(s, sid, past) && made.sid != sid
    ensures RecordedAt(s, sid, past + [made])
  {
  }

  /** Stored sessions may go and may change, but not in identity, id and protocol. */
  lemma StaysRecorded(x: Index, y: Index, past: seq<Session>)
    requires Recorded(x, past)
    requires forall sid | sid in y.sessions :: sid in x.sessions && SameSession(x.sessions[sid], y.sessions[sid])
    ensures Recorded(y, past)
  {
    forall sid | sid in y.sessions ensures RecordedAt(y.sessions[sid], sid, past) {
      assert RecordedAt(x.sessions[sid], sid, past);
    }
  }

  predicate SameSession(s: Session, t: Session) {
    s.serial == t.serial && s.sid == t.sid && s.proto == t.proto
  }

  /** A step that changes stored sessions or drops them. */
  lemma IndexStepKeeps(s: State, y: Index, now: int)
    requires Invariant(s) && Good(y) && ClockIsAt(y, now)
    requires forall sid | sid in y.sessions :: sid in s.index.sessions && SameSession(s.index.sessions[sid], y.sessions[sid])
    ensures Invariant(State(y, s.past, now))
  {
    StaysRecorded(s.index, y, s.past);
  }

  lemma StepKeeps(s: State, a: Action, lifeTime: nat)
    requires Invariant(s)
    ensures Invariant(Step(s, a, lifeTime))
  {
    if Enabled(s, a) {
      match a
      case Open(sid, proto, now) => OpenKeeps(s, sid, proto, now, lifeTime);
      case Look(sid, now) =>
        var found := s.index.sessions[sid];
        if found.proto == LongPoll {
          TouchedIsGood(s.index, found, now, Touched(s.index, found, now));
          IndexStepKeeps(s, Touched(s.index, found, now), now);
        }
      case Remove(serial) => RemoveKeeps(s, serial);
      case Login(sid, uid) =>
        SignedInIsGood(s.index, s.index.sessions[sid], uid);
        IndexStepKeeps(s, SignedIn(s.index, s.index.sessions[sid], uid), s.clock);
      case Evict(uid, skip) =>
        WithoutIsGood(s.index, Leaving(s.index, {}, uid, skip), Evicted(s.index, uid, skip));
        WithoutKeepsClock(s.index, Leaving(s.index, {}, uid, skip), s.clock);
        IndexStepKeeps(s, Evicted(s.index, uid, skip), s.clock);
    }
  }

  lemma {:induction false} RunKeeps(actions: seq<Action>, lifeTime: nat)
    ensures Invariant(Run(actions, lifeTime))
  {
    if actions != [] {
      RunKeeps(actions[..|actions| - 1], lifeTime);
      StepKeeps(Run(actions[..|actions| - 1], lifeTime), actions[|actions| - 1], lifeTime);
    }
  }

  /**
   After every run the list is the long-poll sessions of the map, each once, the latest used first,
   although sessions may be removed late and twice and ids of other sessions come back.
   */
  lemma MapAndListAgree(actions: seq<Action>, lifeTime: nat)
    ensures Good(Run(actions, lifeTime).index)
  {
    RunKeeps(actions, lifeTime);
  }

  method Any(sids: set<Sid>) returns (sid: Sid)
    requires sids != {}
    ensures sid in sids
  {
    sid :| sid in sids;
  }

  class Store {
    var sessCache: map<Sid, Session>
    var lru: seq<Session>
    var nextSerial: nat
    const lifeTime: nat

    ghost function Contents(): Index
      reads this
    {
      Index(sessCache, lru)
    }

    ghost predicate Valid()
      reads this
    {
      Good(Contents()) && SerialsBelow(Contents(), nextSerial)
    }

    constructor (lifeTime: nat)
      ensures Valid() && Contents() == Index(map[], []) && this.lifeTime == lifeTime
    {
      this.lifeTime := lifeTime;
      sessCache, lru, nextSerial := map[], [], 0;
    }

    /** Add a session and drop the stale long-poll ones. An id that is in use is fatal: no session comes back. */
    method NewSession(sid: Sid, proto: Proto, now: int) returns (made: Option<Session>, expired: seq<Session>)
      requires Valid() && ClockIsAt(Contents(), now)
      modifies this
      ensures Valid() && ClockIsAt(Contents(), now)
      ensures sid in old(sessCache) ==> made == None && expired == [] && Contents() == old(Contents())
      ensures sid !in old(sessCache) ==> made == Some(Session(old(nextSerial), sid, proto, 0, now))
      ensures sid !in old(sessCache) ==> Contents() == Opened(old(Contents()), made.value, lifeTime)
      ensures sid !in old(sessCache) ==> Expires(old(Contents()), made.value, now - lifeTime, expired)
      ensures sid !in old(sessCache) ==> forall t :: t in sessCache <==>
        t == sid || (t in old(sessCache) && !(old(sessCache)[t].proto == LongPoll && old(sessCache)[t].lastTouched < now - lifeTime))
      ensures sid !in old(sessCache) ==>
        forall t | t in sessCache :: sessCache[t] == if t == sid then made.value else old(sessCache)[t]
    {
      if sid in sessCache {
        return None, [];
      }
      var s := Session(nextSerial, sid, proto, 0, now);
      nextSerial := nextSerial + 1;
      ghost var x := Contents();
      Add(s);
      AddedIsGood(x, s, Contents());
      expired := Expire(now - lifeTime);
      OpenedIsGood(x, s, lifeTime, Contents());
      OpenedKeepsSerials(x, s, lifeTime, nextSerial, Contents());
      forall t { OpeningDropsTheStale(x, s, lifeTime, t); }
      made := Some(s);
    }

    /** The sessions to clean up when s has been added: the stale ones of the list. */
    static ghost predicate Expires(x: Index, s: Session, cutoff: int, expired: seq<Session>) {
      forall e :: e in expired <==> e in Added(x, s).lru && e.lastTouched < cutoff
    }

    method Add(s: Session)
      modifies this`lru, this`sessCache
      ensures Contents() == Added(old(Contents()), s)
    {
      if s.proto == LongPoll {
        lru := [s] + lru;
      }
      sessCache := sessCache[s.sid := s];
    }

    /** Drop stale sessions, from the back of the list to the first that is not stale. */
    method Expire(cutoff: int) returns (expired: seq<Session>)
      requires Good(Contents())
      modifies this`lru, this`sessCache
      ensures Contents() == Trimmed(old(Contents()), cutoff)
      ensures forall s :: s in expired <==> s in old(lru) && s.lastTouched < cutoff
    {
      expired := [];
      ghost var x, n := Contents(), |lru|;
      NothingDropped(x);
      while lru != [] && lru[|lru| - 1].lastTouched < cutoff
        invariant 0 <= n && Expiring(x, n, cutoff, Contents(), expired)
        decreases n
      {
        var sess := lru[|lru| - 1];
        ExpireOne(x, n, cutoff, Contents(), expired);
        n := n - 1;
        lru := lru[..|lru| - 1];
        sessCache := sessCache - {sess.sid};
        expired := expired + [sess];
      }
      ExpireDone(x, n, cutoff, Contents(), expired);
    }

    /** Look a session up; a long-poll session comes to the front of the list. */
    method Get(sid: Sid, now: int) returns (found: Option<Session>)
      requires Valid() && ClockIsAt(Contents(), now)
      modifies this`lru, this`sessCache
      ensures Valid() && ClockIsAt(Contents(), now)
      ensures found == if sid !in old(sessCache) then None
                       else if old(sessCache)[sid].proto == LongPoll then Some(old(sessCache)[sid].(lastTouched := now))
                       else Some(old(sessCache)[sid])
      ensures Contents() == if sid in old(sessCache) && old(sessCache)[sid].proto == LongPoll
                            then Touched(old(Contents()), old(sessCache)[sid], now) else old(Contents())
      ensures found.Some? ==> sessCache == old(sessCache)[sid := found.value]
      ensures found.Some? && found.value.proto == LongPoll ==> lru != [] && lru[0] == found.value && lru[1..] == Except(old(lru), {found.value.serial})
    {
      if sid !in sessCache {
        return None;
      }
      var s := sessCache[sid];
      if s.proto == LongPoll {
        ghost var x := Contents();
        lru := Except(lru, {s.serial});
        s := s.(lastTouched := now);
        lru := [s] + lru;
        sessCache := sessCache[sid := s];
        TouchedIsGood(x, x.sessions[sid], now, Contents());
      }
      found := Some(s);
    }

    /** Take a session out, whether or not it is still stored. */
    method Delete(s: Session)
      modifies this`lru, this`sessCache
      ensures Contents() == Deleted(old(Contents()), s)
      ensures sessCache == old(sessCache) - {s.sid}
      ensures forall t :: t in lru <==> t in old(lru) && !(s.proto == LongPoll && t.serial == s.serial)
    {
      ExceptHas(lru, {s.serial});
      sessCache := sessCache - {s.sid};
      if s.proto == LongPoll {
        lru := Except(lru, {s.serial});
      }
    }

    /** A session signs in as a user. */
    method SignIn(sid: Sid, uid: Uid)
      requires Valid() && sid in sessCache
      modifies this`lru, this`sessCache
      ensures Valid() && Contents() == SignedIn(old(Contents()), old(sessCache)[sid], uid)
      ensures sessCache == old(sessCache)[sid := old(sessCache)[sid].(uid := uid)] && |lru| == |old(lru)|
    {
      var s := sessCache[sid];
      SignedInIsGood(Contents(), s, uid);
      sessCache, lru := sessCache[sid := s.(uid := uid)], Swapped(lru, s, s.(uid := uid));
    }

    /** Drop every session of a user except one, and except those that carry other users' sessions. */
    method EvictUser(uid: Uid, skip: Sid)
      requires Valid()
      modifies this`lru, this`sessCache
      ensures Valid() && Contents() == Evicted(old(Contents()), uid, skip)
      ensures forall sid :: sid in sessCache <==>
        && sid in old(sessCache)
        && (old(sessCache)[sid].uid != uid || old(sessCache)[sid].proto == Multiplex || sid == skip)
      ensures forall sid | sid in sessCache :: sessCache[sid] == old(sessCache)[sid]
    {
      ghost var x := Contents();
      var todo := sessCache.Keys;
      ghost var gone := Leaving(x, todo, uid, skip);
      NoneLeaving(x, uid, skip);
      while todo != {}
        invariant todo <= x.sessions.Keys && gone == Leaving(x, todo, uid, skip)
        invariant Contents() == Without(x, gone)
        decreases todo
      {
        var sid := Any(todo);
        LeavingNext(x, todo, uid, skip, sid);
        todo := todo - {sid};
        var s := sessCache[sid];
        if s.uid == uid && s.proto != Multiplex && s.sid != skip {
          WithoutOneMore(x, gone, s);
          if s.proto != LongPoll { NotListed(x, gone, s); }
          gone := gone + {s.serial};
          sessCache := sessCache - {s.sid};
          if s.proto == LongPoll {
            lru := Except(lru, {s.serial});
          }
        }
      }
      WithoutIsGood(x, gone, Contents());
      forall sid { EvictsExactly(x, uid, skip, sid); }
    }
  }
}
