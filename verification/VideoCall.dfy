/**
 Video calls in a topic: establishment, metadata exchange, hang-up, timeout and reconnects.

 `history` lists, for every call message, the replacement messages the server tried to save; `sent`
 lists the messages forwarded to call parties.
 */
module VideoCall {
  import opened Options

  /** A user ID; zero stands for no user. */
  type Uid = nat

  datatype Party = Party(uid: Uid, isOriginator: bool, sid: string)

  datatype Call = Call(parties: map<string, Party>, seqId: int)

  datatype Event = Ringing | Accept | Offer | Answer | IceCandidate | HangUp | OtherEvent

  datatype Ending = Finished | Disconnected | Missed | Declined

  /** An attempt to save a replacement of the call message; `ok` is whether it was saved. */
  datatype Record = Accepted(ok: bool) | Ended(how: Ending, ok: bool)

  datatype Forward = Forward(event: Event, from: Uid, toUid: Uid, toSid: string)

  datatype Topic = Topic(call: Option<Call>, timer: bool, history: map<int, seq<Record>>, sent: seq<Forward>)

  /** A call event sent by session `sid` of user `uid`; `saves` is whether the store works. */
  datatype Note = Note(event: Event, seqId: int, uid: Uid, sid: string, active: bool, member: bool, saves: bool)

  // ----- steps

  ghost predicate HasOriginator(c: Call) {
    exists k <- c.parties :: c.parties[k].isOriginator
  }

  /** The party that started the call. */
  ghost function Originator(c: Call): Party
    requires HasOriginator(c)
  {
    var k :| k in c.parties && c.parties[k].isOriginator;
    c.parties[k]
  }

  ghost predicate Participates(c: Call, sid: string, uid: Uid) {
    sid in c.parties || exists k <- c.parties :: c.parties[k].uid == uid
  }

  function Log(history: map<int, seq<Record>>, seqId: int, r: Record): map<int, seq<Record>> {
    history[seqId := (if seqId in history then history[seqId] else []) + [r]]
  }

  function Invite(t: Topic, uid: Uid, sid: string, seqId: int): Topic {
    t.(call := Some(Call(map[sid := Party(uid, true, sid)], seqId)), timer := true,
       history := t.history[seqId := []])
  }

  /** How a call ends; `from` is the user who hung up, none if it is the server. */
  ghost function EndingOf(c: Call, from: Option<Uid>, timeout: bool): Ending
    requires HasOriginator(c)
  {
    if from.Some? && |c.parties| == 2 then Finished
    else if from.Some? then (if from.value == Originator(c).uid then Missed else Declined)
    else if timeout then Missed else Disconnected
  }

  ghost function End(t: Topic, from: Option<Uid>, timeout: bool, saves: bool): Topic
    requires t.call.Some? && HasOriginator(t.call.value)
  {
    var c := t.call.value;
    t.(call := None, timer := false, history := Log(t.history, c.seqId, Ended(EndingOf(c, from, timeout), saves)))
  }

  /** The server ends the call; a call without an originator is just dropped. */
  ghost function Terminate(t: Topic, timeout: bool, saves: bool): Topic {
    if t.call.None? then t
    else if !HasOriginator(t.call.value) then t.(call := None)
    else End(t, None, timeout, saves)
  }

  ghost function Respond(t: Topic, n: Note): Topic
    requires t.call.Some?
  {
    var c := t.call.value;
    if |c.parties| != 1 then t
    else if !HasOriginator(c) then t.(call := None)
    else
      var o := Originator(c);
      if o.sid == n.sid || o.uid == n.uid then t
      else if n.event == Accept && !n.saves then
        t.(history := Log(t.history, c.seqId, Accepted(false)))
      else
        var forwarded := t.(sent := t.sent + [Forward(n.event, n.uid, o.uid, o.sid)]);
        if n.event == Accept then
          forwarded.(call := Some(c.(parties := c.parties[n.sid := Party(n.uid, false, n.sid)])), timer := false,
                     history := Log(t.history, c.seqId, Accepted(true)))
        else forwarded
  }

  ghost function Relay(t: Topic, n: Note): Topic
    requires t.call.Some?
  {
    var c := t.call.value;
    if |c.parties| != 2 || n.sid !in c.parties || !(exists k <- c.parties :: k != n.sid) then t
    else
      var k :| k in c.parties && k != n.sid;
      t.(sent := t.sent + [Forward(n.event, n.uid, c.parties[k].uid, c.parties[k].sid)])
  }

  ghost predicate MayHangUp(c: Call, n: Note) {
    && HasOriginator(c)
    && (|c.parties| == 2 ==> Participates(c, n.sid, n.uid))
    && (|c.parties| == 1 ==> !(n.uid == Originator(c).uid && Originator(c).sid != n.sid))
  }

  /** A call event from a client. */
  ghost function Handle(t: Topic, n: Note): Topic {
    if t.call.None? || !n.active || t.call.value.seqId != n.seqId || !n.member then t
    else match n.event
      case Ringing => Respond(t, n)
      case Accept => Respond(t, n)
      case Offer => Relay(t, n)
      case Answer => Relay(t, n)
      case IceCandidate => Relay(t, n)
      case HangUp => if MayHangUp(t.call.value, n) then End(t, Some(n.uid), false, n.saves) else t
      case OtherEvent => t
  }

  ghost predicate HasOtherSession(c: Call, uid: Uid, sid: string) {
    exists k <- c.parties :: c.parties[k].uid == uid && k != sid
  }

  /** The parties after the entry at k moved to `sid`. */
  ghost function Moved(c: Call, k: string, sid: string): Call
    requires k in c.parties
  {
    c.(parties := (c.parties - {k})[sid := c.parties[k].(sid := sid)])
  }

  /** A party reconnects: its entry moves to the new session. */
  ghost function Rebind(c: Call, uid: Uid, sid: string): Call {
    if !HasOtherSession(c, uid, sid) then c
    else
      var k :| k in c.parties && c.parties[k].uid == uid && k != sid;
      Moved(c, k, sid)
  }

  ghost function Refresh(t: Topic, uid: Uid, sid: string): Topic {
    if t.call.None? || uid == 0 then t else t.(call := Some(Rebind(t.call.value, uid, sid)))
  }

  // ----- the shape of a call

  ghost predicate WellFormed(c: Call) {
    && 1 <= |c.parties| <= 2
    && (forall k <- c.parties :: c.parties[k].sid == k && c.parties[k].uid != 0)
    && HasOriginator(c) && OneOriginator(c) && DistinctUsers(c)
  }

  ghost predicate OneOriginator(c: Call) {
    forall j <- c.parties, k <- c.parties :: c.parties[j].isOriginator && c.parties[k].isOriginator ==> j == k
  }

  ghost predicate DistinctUsers(c: Call) {
    forall j <- c.parties, k <- c.parties :: c.parties[j].uid == c.parties[k].uid ==> j == k
  }

  /** What users can see of a call: who takes part and who called. */
  ghost function View(c: Call): set<(Uid, bool)> {
    set k | k in c.parties :: (c.parties[k].uid, c.parties[k].isOriginator)
  }

  /** The session that reconnects for `uid` already is the session of the other party. */
  ghost predicate Collides(c: Call, uid: Uid, sid: string) {
    sid in c.parties && c.parties[sid].uid != uid && exists k <- c.parties :: c.parties[k].uid == uid
  }

  lemma OriginatorIs(c: Call, k: string)
    requires WellFormed(c) && k in c.parties && c.parties[k].isOriginator
    ensures Originator(c) == c.parties[k]
  {
  }

  lemma RebindIs(c: Call, uid: Uid, sid: string, k: string)
    requires WellFormed(c) && k in c.parties && c.parties[k].uid == uid && k != sid
    ensures Rebind(c, uid, sid) == Moved(c, k, sid)
  {
  }

  lemma OtherIs(c: Call, sid: string, k: string)
    requires |c.parties| == 2 && sid in c.parties && k in c.parties && k != sid
    ensures c.parties.Keys == {sid, k}
  {
    assert |c.parties.Keys - {sid, k}| == 0;
  }

  lemma MoveKeepsView(c: Call, k: string, sid: string)
    requires WellFormed(c) && k in c.parties && sid !in c.parties
    ensures View(Moved(c, k, sid)) == View(c)
  {
    var c' := Moved(c, k, sid);
    forall v | v in View(c) ensures v in View(c') {
      var j :| j in c.parties && v == (c.parties[j].uid, c.parties[j].isOriginator);
      assert (if j == k then sid else j) in c'.parties;
    }
  }

  /** The entry of c that an entry after the move comes from. */
  ghost function Source(k: string, sid: string, j: string): string {
    if j == sid then k else j
  }

  lemma MoveSource(c: Call, k: string, sid: string, j: string)
    requires k in c.parties && sid !in c.parties && j in Moved(c, k, sid).parties
    ensures Source(k, sid, j) in c.parties
    ensures Moved(c, k, sid).parties[j] == c.parties[Source(k, sid, j)].(sid := if j == sid then sid else c.parties[j].sid)
  {
  }

  lemma MoveKeepsUnique(c: Call, k: string, sid: string)
    requires OneOriginator(c) && DistinctUsers(c) && k in c.parties && sid !in c.parties
    ensures OneOriginator(Moved(c, k, sid)) && DistinctUsers(Moved(c, k, sid))
  {
    var c' := Moved(c, k, sid);
    forall i <- c'.parties, j <- c'.parties
      ensures c'.parties[i].isOriginator && c'.parties[j].isOriginator ==> i == j
      ensures c'.parties[i].uid == c'.parties[j].uid ==> i == j
    {
      MoveSource(c, k, sid, i);
      MoveSource(c, k, sid, j);
      assert Source(k, sid, i) == Source(k, sid, j) ==> i == j;
    }
  }

  lemma MoveKeepsSize(c: Call, k: string, sid: string)
    requires k in c.parties && sid !in c.parties
    ensures |Moved(c, k, sid).parties| == |c.parties|
  {
    var c' := Moved(c, k, sid);
    assert c'.parties.Keys == c.parties.Keys - {k} + {sid};
    assert |c'.parties| == |c'.parties.Keys| == |c.parties.Keys| == |c.parties|;
  }

  lemma MoveKeepsShape(c: Call, k: string, sid: string)
    requires WellFormed(c) && k in c.parties && sid !in c.parties
    ensures WellFormed(Moved(c, k, sid)) && |Moved(c, k, sid).parties| == |c.parties|
  {
    var c' := Moved(c, k, sid);
    MoveKeepsUnique(c, k, sid);
    MoveKeepsSize(c, k, sid);
    assert HasOriginator(c') by {
      var o :| o in c.parties && c.parties[o].isOriginator;
      assert c'.parties[if o == k then sid else o].isOriginator;
    }
  }

  /** Moving onto the session of the other party makes that party disappear. */
  lemma MoveHidesOther(c: Call, k: string, sid: string)
    requires WellFormed(c) && k in c.parties && sid in c.parties && k != sid
    ensures View(Moved(c, k, sid)) != View(c)
  {
    var v := (c.parties[sid].uid, c.parties[sid].isOriginator);
    assert v in View(c);
    assert forall j <- Moved(c, k, sid).parties :: Moved(c, k, sid).parties[j].uid != v.0;
  }

  /** A reconnect is invisible to users exactly when the new session is not the other party's. */
  lemma RebindIsTransparent(c: Call, uid: Uid, sid: string)
    requires WellFormed(c)
    ensures View(Rebind(c, uid, sid)) == View(c) <==> !Collides(c, uid, sid)
    ensures !Collides(c, uid, sid) ==> WellFormed(Rebind(c, uid, sid)) && |Rebind(c, uid, sid).parties| == |c.parties|
  {
    if HasOtherSession(c, uid, sid) {
      var k :| k in c.parties && c.parties[k].uid == uid && k != sid;
      RebindIs(c, uid, sid, k);
      if sid in c.parties {
        MoveHidesOther(c, k, sid);
      } else {
        MoveKeepsView(c, k, sid);
        MoveKeepsShape(c, k, sid);
      }
    } else if exists k <- c.parties :: c.parties[k].uid == uid {
      assert sid in c.parties && c.parties[sid].uid == uid;
    }
  }

  // ----- runs

  datatype Action =
    | NewCall(uid: Uid, sid: string, seqId: int)
    | Event(note: Note)
    | Reconnect(asUid: Uid, sessionUid: Uid, sid: string)
    | TimerFires(saves: bool)
    | Disconnect(saves: bool)

  /** A call starts only when there is none, with a message number above all earlier ones. */
  predicate Enabled(t: Topic, a: Action) {
    match a
    case NewCall(_, _, seqId) => t.call.None? && forall q <- t.history :: q < seqId
    case TimerFires(_) => t.timer
    case _ => true
  }

  ghost function Step(t: Topic, a: Action): Topic {
    if !Enabled(t, a) then t
    else match a
      case NewCall(uid, sid, seqId) => Invite(t, uid, sid, seqId)
      case Event(n) => Handle(t, n)
      case Reconnect(asUid, sessionUid, sid) => Refresh(t, if asUid != 0 then asUid else sessionUid, sid)
      case TimerFires(saves) => Terminate(t, true, saves)
      case Disconnect(saves) => Terminate(t, false, saves)
  }

  ghost function Run(t: Topic, actions: seq<Action>): Topic
    decreases |actions|
  {
    if actions == [] then t else Run(Step(t, actions[0]), actions[1..])
  }

  const IDLE := Topic(None, false, map[], [])

  /** In a topic a session acts for one user. */
  predicate ActsForOwner(owner: string -> Uid, a: Action) {
    match a
    case NewCall(uid, sid, _) => uid == owner(sid) && uid != 0
    case Event(n) => n.uid == owner(n.sid) && (n.member ==> n.uid != 0)
    case Reconnect(asUid, sessionUid, sid) => (if asUid != 0 then asUid else sessionUid) in {0, owner(sid)}
    case _ => true
  }

  // ----- the history of a call

  /** Failed attempts to record the acceptance, then one that worked if the call is established. */
  ghost predicate IsOpen(h: seq<Record>, established: bool) {
    && (forall i | 0 <= i < |h| :: h[i] == Accepted(established && i == |h| - 1))
    && (established ==> h != [])
  }

  /** A finished history: an open one and exactly one final record that fits it. */
  ghost predicate IsComplete(h: seq<Record>) {
    && h != [] && h[|h| - 1].Ended?
    && var how := h[|h| - 1].how;
       var before := h[..|h| - 1];
       match how
       case Finished => IsOpen(before, true)
       case Declined => IsOpen(before, false)
       case Missed => IsOpen(before, false)
       case Disconnected => IsOpen(before, true) || IsOpen(before, false)
  }

  ghost predicate Bound(owner: string -> Uid, c: Call) {
    WellFormed(c) && forall k <- c.parties :: c.parties[k].uid == owner(k)
  }

  ghost predicate CurrentFits(owner: string -> Uid, t: Topic) {
    match t.call
    case None => !t.timer
    case Some(c) =>
      && Bound(owner, c)
      && (t.timer ==> |c.parties| == 1)
      && c.seqId in t.history && IsOpen(t.history[c.seqId], |c.parties| == 2)
      && forall q <- t.history :: q <= c.seqId
  }

  ghost predicate PastIsComplete(t: Topic) {
    forall q <- t.history :: (t.call.None? || t.call.value.seqId != q) ==> IsComplete(t.history[q])
  }

  ghost predicate ForwardsCross(owner: string -> Uid, t: Topic) {
    forall i | 0 <= i < |t.sent| :: t.sent[i].from != t.sent[i].toUid && owner(t.sent[i].toSid) == t.sent[i].toUid
  }

  ghost predicate Invariant(owner: string -> Uid, t: Topic) {
    CurrentFits(owner, t) && PastIsComplete(t) && ForwardsCross(owner, t)
  }

  /** Ending a call writes the one final record of its history. */
  lemma EndKeeps(owner: string -> Uid, t: Topic, from: Option<Uid>, timeout: bool, saves: bool)
    requires Invariant(owner, t) && t.call.Some? && (timeout ==> from.None? && t.timer)
    ensures Invariant(owner, End(t, from, timeout, saves))
  {
    var c := t.call.value;
    var h := t.history[c.seqId];
    var h' := h + [Ended(EndingOf(c, from, timeout), saves)];
    assert h'[..|h'| - 1] == h;
    assert IsComplete(h');
  }

  lemma RespondKeeps(owner: string -> Uid, t: Topic, n: Note)
    requires Invariant(owner, t) && t.call.Some? && ActsForOwner(owner, Event(n)) && n.member
    ensures Invariant(owner, Respond(t, n))
  {
    var c := t.call.value;
    var h := t.history[c.seqId];
    var o := Originator(c);
    if |c.parties| == 1 && o.sid != n.sid && o.uid != n.uid {
      SoleParty(c);
      if n.event == Accept && n.saves {
        JoinKeepsShape(c, o, n.uid, n.sid);
      }
    }
  }

  lemma JoinKeepsShape(c: Call, o: Party, uid: Uid, sid: string)
    requires WellFormed(c) && c.parties.Keys == {o.sid} && c.parties[o.sid] == o && o.isOriginator
    requires uid != 0 && o.sid != sid && o.uid != uid
    ensures var c' := c.(parties := c.parties[sid := Party(uid, false, sid)]); WellFormed(c') && |c'.parties| == 2
  {
    var c' := c.(parties := c.parties[sid := Party(uid, false, sid)]);
    assert c'.parties.Keys == {o.sid, sid};
    assert |c'.parties| == |c'.parties.Keys| == 2;
    assert c'.parties[o.sid] == o;
  }

  lemma SoleParty(c: Call)
    requires WellFormed(c) && |c.parties| == 1
    ensures c.parties.Keys == {Originator(c).sid} && c.parties[Originator(c).sid] == Originator(c)
  {
    assert |c.parties.Keys - {Originator(c).sid}| == 0;
  }

  lemma RelayKeeps(owner: string -> Uid, t: Topic, n: Note)
    requires Invariant(owner, t) && t.call.Some? && ActsForOwner(owner, Event(n))
    ensures Invariant(owner, Relay(t, n))
  {
  }

  lemma RebindKeepsBound(owner: string -> Uid, c: Call, uid: Uid, sid: string)
    requires Bound(owner, c) && uid == owner(sid)
    ensures Bound(owner, Rebind(c, uid, sid)) && |Rebind(c, uid, sid).parties| == |c.parties|
    ensures View(Rebind(c, uid, sid)) == View(c)
  {
    RebindIsTransparent(c, uid, sid);
    if HasOtherSession(c, uid, sid) {
      var k :| k in c.parties && c.parties[k].uid == uid && k != sid;
      RebindIs(c, uid, sid, k);
      MoveKeepsOwners(owner, c, k, sid);
    }
  }

  lemma MoveKeepsOwners(owner: string -> Uid, c: Call, k: string, sid: string)
    requires (forall j <- c.parties :: c.parties[j].uid == owner(j)) && k in c.parties && c.parties[k].uid == owner(sid)
    ensures var c' := Moved(c, k, sid); forall j <- c'.parties :: c'.parties[j].uid == owner(j)
  {
  }

  lemma RefreshKeeps(owner: string -> Uid, t: Topic, uid: Uid, sid: string)
    requires Invariant(owner, t) && uid in {0, owner(sid)}
    ensures Invariant(owner, Refresh(t, uid, sid))
    ensures t.call.Some? ==> View(Refresh(t, uid, sid).call.value) == View(t.call.value)
  {
    if t.call.Some? && uid != 0 {
      RebindKeepsBound(owner, t.call.value, uid, sid);
    }
  }

  lemma EventKeeps(owner: string -> Uid, t: Topic, n: Note)
    requires Invariant(owner, t) && ActsForOwner(owner, Event(n))
    ensures Invariant(owner, Handle(t, n))
  {
    if t.call.Some? && n.member {
      match n.event
      case HangUp => EndKeeps(owner, t, Some(n.uid), false, n.saves);
      case OtherEvent =>
      case Ringing => RespondKeeps(owner, t, n);
      case Accept => RespondKeeps(owner, t, n);
      case _ => RelayKeeps(owner, t, n);
    }
  }

  lemma InviteKeeps(owner: string -> Uid, t: Topic, uid: Uid, sid: string, seqId: int)
    requires Invariant(owner, t) && Enabled(t, NewCall(uid, sid, seqId)) && uid == owner(sid) && uid != 0
    ensures Invariant(owner, Invite(t, uid, sid, seqId))
  {
    var c := Invite(t, uid, sid, seqId).call.value;
    assert c.parties.Keys == {sid} && c.parties[sid].isOriginator;
  }

  lemma StepKeeps(owner: string -> Uid, t: Topic, a: Action)
    requires Invariant(owner, t) && ActsForOwner(owner, a)
    ensures Invariant(owner, Step(t, a))
  {
    if Enabled(t, a) {
      match a
      case NewCall(uid, sid, seqId) => InviteKeeps(owner, t, uid, sid, seqId);
      case Event(n) => EventKeeps(owner, t, n);
      case Reconnect(asUid, sessionUid, sid) => RefreshKeeps(owner, t, if asUid != 0 then asUid else sessionUid, sid);
      case TimerFires(saves) => EndKeeps(owner, t, None, true, saves);
      case Disconnect(saves) => if t.call.Some? { EndKeeps(owner, t, None, false, saves); }
    }
  }

  lemma {:induction false} RunKeeps(owner: string -> Uid, t: Topic, actions: seq<Action>)
    requires Invariant(owner, t) && forall a <- actions :: ActsForOwner(owner, a)
    ensures Invariant(owner, Run(t, actions))
    decreases |actions|
  {
    if actions != [] {
      StepKeeps(owner, t, actions[0]);
      RunKeeps(owner, Step(t, actions[0]), actions[1..]);
    }
  }

  // ----- what every run guarantees

  /**
   In every run the history of each past call is any number of failed acceptances, at most one
   successful acceptance, and exactly one final record: "finished" only with a successful acceptance,
   "declined" and "missed" only without. The history of the current call has no final record, and a
   successful acceptance exactly when it has two parties.
   */
  lemma CallHistory(owner: string -> Uid, actions: seq<Action>)
    requires forall a <- actions :: ActsForOwner(owner, a)
    ensures var t := Run(IDLE, actions);
      forall q <- t.history ::
        if t.call.Some? && t.call.value.seqId == q then IsOpen(t.history[q], |t.call.value.parties| == 2)
        else IsComplete(t.history[q])
  {
    RunKeeps(owner, IDLE, actions);
  }

  /**
   In every run a current call has one or two parties of different users, each under the ID of its own
   session, and exactly one originator; the timer runs only before the call is established; and every
   forwarded message goes from one user to a session of another.
   */
  lemma CallShape(owner: string -> Uid, actions: seq<Action>)
    requires forall a <- actions :: ActsForOwner(owner, a)
    ensures var t := Run(IDLE, actions);
      && (t.call.Some? ==> WellFormed(t.call.value))
      && (t.timer ==> t.call.Some? && |t.call.value.parties| == 1)
      && (forall i | 0 <= i < |t.sent| :: t.sent[i].from != t.sent[i].toUid && owner(t.sent[i].toSid) == t.sent[i].toUid)
  {
    RunKeeps(owner, IDLE, actions);
  }

  /** Any sequence of reconnects leaves everything but the sessions of a call unchanged. */
  lemma {:induction false} ReconnectsAreTransparent(owner: string -> Uid, t: Topic, actions: seq<Action>)
    requires Invariant(owner, t) && forall a <- actions :: a.Reconnect? && ActsForOwner(owner, a)
    ensures var t' := Run(t, actions);
      && t'.timer == t.timer && t'.history == t.history && t'.sent == t.sent && t'.call.Some? == t.call.Some?
      && (t.call.Some? ==> View(t'.call.value) == View(t.call.value) && t'.call.value.seqId == t.call.value.seqId)
    decreases |actions|
  {
    if actions != [] {
      var a := actions[0];
      RefreshKeeps(owner, t, if a.asUid != 0 then a.asUid else a.sessionUid, a.sid);
      ReconnectsAreTransparent(owner, Step(t, a), actions[1..]);
    }
  }

  /** Events for another call than the current one change nothing, and a call's number is used once. */
  lemma OtherCallsAreSafe(owner: string -> Uid, actions: seq<Action>, n: Note)
    requires forall a <- actions :: ActsForOwner(owner, a)
    ensures var t := Run(IDLE, actions);
      n.seqId in t.history && IsComplete(t.history[n.seqId]) ==> Step(t, Event(n)) == t
  {
    RunKeeps(owner, IDLE, actions);
    var t := Run(IDLE, actions);
    if t.call.Some? && t.call.value.seqId == n.seqId {
      var h := t.history[n.seqId];
      assert h != [] ==> h[|h| - 1].Accepted?;
    }
  }

  lemma NextAction(t: Topic, a: Action, rest: seq<Action>)
    ensures Run(t, [a] + rest) == Run(Step(t, a), rest)
  {
    assert ([a] + rest)[1..] == rest;
  }

  lemma ThreeActions(t: Topic, a: Action, b: Action, c: Action)
    ensures Run(t, [a, b]) == Step(Step(t, a), b)
    ensures Run(t, [a, b, c]) == Step(Step(Step(t, a), b), c)
  {
    assert [a, b] == [a] + [b] && [b] == [b] + [] && [a, b, c] == [a] + [b, c] && [b, c] == [b] + [c] && [c] == [c] + [];
    NextAction(t, a, [b]);
    NextAction(Step(t, a), b, []);
    NextAction(t, a, [b, c]);
    NextAction(Step(t, a), b, [c]);
    NextAction(Step(Step(t, a), b), c, []);
  }

  function AcceptNote(seqId: int, uid: Uid, sid: string): Note {
    Note(Accept, seqId, uid, sid, true, true, true)
  }

  /** An established call between a on s1 and b on s2. */
  ghost predicate BetweenTwo(call: Option<Call>, a: Uid, b: Uid, s1: string, s2: string) {
    && call.Some? && WellFormed(call.value) && call.value.parties.Keys == {s1, s2}
    && call.value.parties[s1].uid == a && call.value.parties[s2].uid == b
  }

  lemma AcceptJoins(t: Topic, c: Call, n: Note)
    requires t.call == Some(c) && |c.parties| == 1 && HasOriginator(c) && n.event == Accept && n.saves
    requires Originator(c).sid != n.sid && Originator(c).uid != n.uid
    ensures Respond(t, n).call == Some(c.(parties := c.parties[n.sid := Party(n.uid, false, n.sid)]))
  {
  }

  lemma AcceptedCall(c: Call, t: Topic, a: Uid, b: Uid, s1: string, s2: string, seqId: int)
    requires a != 0 && b != 0 && a != b && s1 != s2
    requires t.call == Some(c) && c == Call(map[s1 := Party(a, true, s1)], seqId)
    ensures BetweenTwo(Respond(t, AcceptNote(seqId, b, s2)).call, a, b, s1, s2)
  {
    var o := c.parties[s1];
    assert c.parties.Keys == {s1} && o.isOriginator;
    OriginatorIs(c, s1);
    JoinKeepsShape(c, o, b, s2);
    AcceptJoins(t, c, AcceptNote(seqId, b, s2));
  }

  ghost function Users(c: Call): set<Uid> {
    set k | k in c.parties :: c.parties[k].uid
  }

  lemma RebindHidesOther(c: Call, a: Uid, b: Uid, s1: string, s2: string)
    requires WellFormed(c) && a != b && s1 != s2 && c.parties.Keys == {s1, s2}
    requires c.parties[s1].uid == a && c.parties[s2].uid == b
    ensures View(Rebind(c, a, s2)) != View(c) && b in Users(c) && b !in Users(Rebind(c, a, s2))
  {
    RebindIs(c, a, s2, s1);
    RebindIsTransparent(c, a, s2);
    assert b == c.parties[s2].uid;
  }

  /**
   The collision happens if a session acts for two users: b accepts the call of a on the session s2, which
   then subscribes for a. The entry of b is overwritten, and b is no longer in the call.
   */
  lemma SharedSessionHidesParty(a: Uid, b: Uid, s1: string, s2: string, seqId: int)
    requires a != 0 && b != 0 && a != b && s1 != s2
    ensures var start := [NewCall(a, s1, seqId), Event(AcceptNote(seqId, b, s2))];
      var before, after := Run(IDLE, start), Run(IDLE, start + [Reconnect(a, a, s2)]);
      && before.call.Some? && WellFormed(before.call.value) && after.call.Some?
      && View(after.call.value) != View(before.call.value)
      && b !in Users(after.call.value) && b in Users(before.call.value)
  {
    var call, accept, again := NewCall(a, s1, seqId), Event(AcceptNote(seqId, b, s2)), Reconnect(a, a, s2);
    ThreeActions(IDLE, call, accept, again);
    assert [call, accept] + [again] == [call, accept, again];
    AcceptSteps(a, b, s1, s2, seqId);
    var before := Step(Step(IDLE, call), accept);
    RebindHidesOther(before.call.value, a, b, s1, s2);
  }

  lemma AcceptSteps(a: Uid, b: Uid, s1: string, s2: string, seqId: int)
    requires a != 0 && b != 0 && a != b && s1 != s2
    ensures var t := Step(Step(IDLE, NewCall(a, s1, seqId)), Event(AcceptNote(seqId, b, s2))); BetweenTwo(t.call, a, b, s1, s2)
  {
    var invited := Invite(IDLE, a, s1, seqId);
    assert Step(IDLE, NewCall(a, s1, seqId)) == invited;
    assert Step(invited, Event(AcceptNote(seqId, b, s2))) == Respond(invited, AcceptNote(seqId, b, s2));
    AcceptedCall(invited.call.value, invited, a, b, s1, s2, seqId);
  }
}
