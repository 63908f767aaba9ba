/**
 The story of a call, told by the actions since it was started: who takes part and on which session, what was
 forwarded to whom, and how it ended.
 */
module CallStory {
  import opened Options
  import opened VideoCall

  /** Who started the call, on which session and with which message. */
  datatype Start = Start(caller: Uid, sid: string, seqId: int)

  /** A user and the session it is reached on. */
  datatype Side = Side(uid: Uid, sid: string)

  // ----- what the actions say

  /** An event of this call from a member of a topic that is not paused. */
  predicate Concerns(a: Action, st: Start) {
    a.Event? && a.note.active && a.note.member && a.note.seqId == st.seqId
  }

  /** Somebody else than the caller accepts the call. */
  predicate Answers(a: Action, st: Start) {
    Concerns(a, st) && a.note.event == Accept && a.note.uid != st.caller
  }

  /** The acceptance is saved. */
  predicate IsAcceptance(a: Action, st: Start) {
    Answers(a, st) && a.note.saves
  }

  predicate IsMetadata(e: Event) {
    e == Offer || e == Answer || e == IceCandidate
  }

  /** The session on which the user reconnects. */
  predicate Moves(a: Action, uid: Uid) {
    a.Reconnect? && uid != 0 && (if a.asUid != 0 then a.asUid else a.sessionUid) == uid
  }

  function Caller(st: Start, during: seq<Action>): Side {
    if during == [] then Side(st.caller, st.sid)
    else if Moves(during[|during| - 1], st.caller) then Side(st.caller, during[|during| - 1].sid)
    else Caller(st, during[..|during| - 1])
  }

  /** The user of the first acceptance, on its latest session. */
  function Callee(st: Start, during: seq<Action>): Option<Side> {
    if during == [] then None
    else
      var before, a := Callee(st, during[..|during| - 1]), during[|during| - 1];
      if before.None? then (if IsAcceptance(a, st) then Some(Side(a.note.uid, a.note.sid)) else None)
      else if Moves(a, before.value.uid) then Some(Side(before.value.uid, a.sid))
      else before
  }

  /** The acceptances that were not saved, up to the one that was. */
  function Attempts(st: Start, during: seq<Action>): seq<Record> {
    if during == [] then []
    else
      var init, a := during[..|during| - 1], during[|during| - 1];
      Attempts(st, init) + if Callee(st, init).None? && Answers(a, st) then [Accepted(a.note.saves)] else []
  }

  /** Whom an event is forwarded to: before the call is accepted the caller, after that the other side. */
  function Receiver(st: Start, during: seq<Action>, a: Action): Option<Side> {
    var caller, callee := Caller(st, during), Callee(st, during);
    if !Concerns(a, st) then None
    else if callee.None? then
      if a.note.uid != st.caller && (a.note.event == Ringing || (a.note.event == Accept && a.note.saves)) then Some(caller) else None
    else if !IsMetadata(a.note.event) then None
    else if a.note.sid == caller.sid then callee
    else if a.note.sid == callee.value.sid then Some(caller)
    else None
  }

  function Forwarded(st: Start, during: seq<Action>): seq<Forward> {
    if during == [] then []
    else
      var init, a := during[..|during| - 1], during[|during| - 1];
      var to := Receiver(st, init, a);
      Forwarded(st, init) + if to.Some? then [Forward(a.note.event, a.note.uid, to.value.uid, to.value.sid)] else []
  }

  /** A user may hang up: before the call is accepted anybody, the caller on its own session only; after that both sides. */
  predicate HangsUp(st: Start, during: seq<Action>, a: Action) {
    && Concerns(a, st) && a.note.event == HangUp
    && match Callee(st, during)
       case None => a.note.uid != st.caller || a.note.sid == Caller(st, during).sid
       case Some(callee) => a.note.uid == st.caller || a.note.uid == callee.uid
  }

  /** The timer is stopped by an acceptance. */
  predicate Ends(st: Start, during: seq<Action>, a: Action) {
    a.Disconnect? || (a.TimerFires? && Callee(st, during).None?) || HangsUp(st, during, a)
  }

  function How(st: Start, during: seq<Action>, a: Action): Ending {
    if a.Disconnect? then Disconnected
    else if a.TimerFires? then Missed
    else if Callee(st, during).Some? then Finished
    else if a.Event? && a.note.uid == st.caller then Missed
    else Declined
  }

  function Saves(a: Action): bool {
    match a
    case Event(n) => n.saves
    case TimerFires(saves) => saves
    case Disconnect(saves) => saves
    case _ => false
  }

  // ----- the topic follows the story

  function Entry(side: Side, isOriginator: bool): map<string, Party> {
    map[side.sid := Party(side.uid, isOriginator, side.sid)]
  }

  function Parties(caller: Side, callee: Option<Side>): map<string, Party> {
    Entry(caller, true) + if callee.Some? then Entry(callee.value, false) else map[]
  }

  /** A topic t in a call that was started in the topic t0, with these sides, records and forwards. */
  ghost predicate Shows(t0: Topic, st: Start, caller: Side, callee: Option<Side>, attempts: seq<Record>, forwarded: seq<Forward>, t: Topic) {
    && t.call == Some(Call(Parties(caller, callee), st.seqId)) && (t.timer <==> callee.None?)
    && t.history == t0.history[st.seqId := attempts] && t.sent == t0.sent + forwarded
  }

  /** The topic t, as the actions since the start of the call in the topic t0 say. */
  ghost predicate Tells(t0: Topic, st: Start, during: seq<Action>, t: Topic) {
    Shows(t0, st, Caller(st, during), Callee(st, during), Attempts(st, during), Forwarded(st, during), t)
  }

  /** The call is over, with this record. */
  ghost predicate Over(t0: Topic, st: Start, during: seq<Action>, a: Action, t: Topic) {
    && t.call == None && !t.timer && t.sent == t0.sent + Forwarded(st, during)
    && t.history == t0.history[st.seqId := Attempts(st, during) + [Ended(How(st, during, a), Saves(a))]]
  }

  /** Both sides act on their own sessions. */
  ghost predicate Apart(owner: string -> Uid, st: Start, caller: Side, callee: Option<Side>) {
    && caller.uid == st.caller == owner(caller.sid) && st.caller != 0
    && (callee.Some? ==> callee.value.uid == owner(callee.value.sid) && callee.value.uid != 0 && callee.value.uid != st.caller)
  }

  lemma {:induction false} SidesApart(owner: string -> Uid, st: Start, during: seq<Action>)
    requires st.caller == owner(st.sid) && st.caller != 0 && forall a <- during :: ActsForOwner(owner, a)
    ensures Apart(owner, st, Caller(st, during), Callee(st, during))
  {
    if during != [] {
      SidesApart(owner, st, during[..|during| - 1]);
      assert during[|during| - 1] in during;
    }
  }

  lemma PartiesAre(caller: Side, callee: Option<Side>, p: map<string, Party>)
    requires p == Parties(caller, callee) && (callee.Some? ==> callee.value.sid != caller.sid)
    ensures p.Keys == {caller.sid} + if callee.Some? then {callee.value.sid} else {}
    ensures p[caller.sid] == Party(caller.uid, true, caller.sid)
    ensures callee.Some? ==> p[callee.value.sid] == Party(callee.value.uid, false, callee.value.sid)
    ensures |p| == if callee.Some? then 2 else 1
  {
    assert p.Keys == {caller.sid} + if callee.Some? then {callee.value.sid} else {};
    assert |p| == |p.Keys|;
  }

  /** The parties of the story make a call of the proved shape, with the caller as its originator. */
  lemma StoryShape(owner: string -> Uid, st: Start, caller: Side, callee: Option<Side>, c: Call)
    requires Apart(owner, st, caller, callee) && c == Call(Parties(caller, callee), st.seqId)
    ensures WellFormed(c) && Originator(c) == Party(caller.uid, true, caller.sid)
  {
    PartiesAre(caller, callee, c.parties);
    assert c.parties[caller.sid].isOriginator;
    assert forall k <- c.parties :: k == caller.sid || (callee.Some? && k == callee.value.sid);
    OriginatorIs(c, caller.sid);
  }

  /** A topic in the middle of a call between these sides. */
  ghost predicate Between(owner: string -> Uid, st: Start, caller: Side, callee: Option<Side>, t: Topic) {
    Apart(owner, st, caller, callee) && t.call == Some(Call(Parties(caller, callee), st.seqId))
  }

  lemma AcceptedParties(caller: Side, uid: Uid, sid: string)
    ensures Parties(caller, None)[sid := Party(uid, false, sid)] == Parties(caller, Some(Side(uid, sid)))
  {
  }

  lemma RespondIs(owner: string -> Uid, st: Start, caller: Side, callee: Option<Side>, t: Topic, n: Note)
    requires Between(owner, st, caller, callee, t) && n.uid == owner(n.sid) && st.seqId in t.history
    ensures callee.Some? || n.uid == st.caller ==> Respond(t, n) == t
    ensures callee.None? && n.uid != st.caller ==>
      var history := t.history[st.seqId := t.history[st.seqId] + [Accepted(n.saves)]];
      var sent := t.sent + [Forward(n.event, n.uid, caller.uid, caller.sid)];
      Respond(t, n) ==
        if n.event != Accept then t.(sent := sent)
        else if !n.saves then t.(history := history)
        else Topic(Some(Call(Parties(caller, Some(Side(n.uid, n.sid))), st.seqId)), false, history, sent)
  {
    StoryShape(owner, st, caller, callee, t.call.value);
    PartiesAre(caller, callee, t.call.value.parties);
    AcceptedParties(caller, n.uid, n.sid);
  }

  lemma RelayTo(t: Topic, n: Note, k: string)
    requires t.call.Some? && |t.call.value.parties| == 2 && n.sid in t.call.value.parties && k in t.call.value.parties && k != n.sid
    ensures var p := t.call.value.parties[k]; Relay(t, n) == t.(sent := t.sent + [Forward(n.event, n.uid, p.uid, p.sid)])
  {
    OtherIs(t.call.value, n.sid, k);
  }

  lemma RelayIs(owner: string -> Uid, st: Start, caller: Side, callee: Option<Side>, t: Topic, n: Note)
    requires Between(owner, st, caller, callee, t)
    ensures callee.None? || n.sid !in {caller.sid, callee.value.sid} ==> Relay(t, n) == t
    ensures callee.Some? && n.sid in {caller.sid, callee.value.sid} ==>
      var to := if n.sid == caller.sid then callee.value else caller;
      Relay(t, n) == t.(sent := t.sent + [Forward(n.event, n.uid, to.uid, to.sid)])
  {
    PartiesAre(caller, callee, t.call.value.parties);
    if callee.Some? && n.sid in {caller.sid, callee.value.sid} {
      RelayTo(t, n, if n.sid == caller.sid then callee.value.sid else caller.sid);
    }
  }

  lemma ParticipatesIs(owner: string -> Uid, st: Start, caller: Side, callee: Side, c: Call, n: Note)
    requires Apart(owner, st, caller, Some(callee)) && c == Call(Parties(caller, Some(callee)), st.seqId) && n.uid == owner(n.sid)
    ensures Participates(c, n.sid, n.uid) <==> n.uid == st.caller || n.uid == callee.uid
  {
    PartiesAre(caller, Some(callee), c.parties);
    if n.uid == st.caller {
      assert c.parties[caller.sid].uid == n.uid;
    } else if n.uid == callee.uid {
      assert c.parties[callee.sid].uid == n.uid;
    }
  }

  lemma HangUpIs(owner: string -> Uid, st: Start, caller: Side, callee: Option<Side>, t: Topic, n: Note)
    requires Between(owner, st, caller, callee, t) && n.uid == owner(n.sid)
    ensures MayHangUp(t.call.value, n) <==>
      match callee
      case None => n.uid != st.caller || n.sid == caller.sid
      case Some(other) => n.uid == st.caller || n.uid == other.uid
  {
    StoryShape(owner, st, caller, callee, t.call.value);
    PartiesAre(caller, callee, t.call.value.parties);
    if callee.Some? {
      ParticipatesIs(owner, st, caller, callee.value, t.call.value, n);
    }
  }

  lemma EndIs(owner: string -> Uid, st: Start, caller: Side, callee: Option<Side>, t: Topic, from: Option<Uid>, timeout: bool, saves: bool)
    requires Between(owner, st, caller, callee, t) && st.seqId in t.history
    ensures HasOriginator(t.call.value)
    ensures var how :=
        if from.None? then (if timeout then Missed else Disconnected)
        else if callee.Some? then Finished else if from.value == st.caller then Missed else Declined;
      End(t, from, timeout, saves) ==
      Topic(None, false, t.history[st.seqId := t.history[st.seqId] + [Ended(how, saves)]], t.sent)
  {
    StoryShape(owner, st, caller, callee, t.call.value);
    PartiesAre(caller, callee, t.call.value.parties);
  }

  lemma MovedCaller(caller: Side, callee: Option<Side>, sid: string)
    requires callee.Some? ==> callee.value.sid != caller.sid && callee.value.sid != sid
    ensures (Parties(caller, callee) - {caller.sid})[sid := Party(caller.uid, true, sid)] == Parties(Side(caller.uid, sid), callee)
  {
  }

  lemma MovedCallee(caller: Side, callee: Side, sid: string)
    requires callee.sid != caller.sid && caller.sid != sid
    ensures (Parties(caller, Some(callee)) - {callee.sid})[sid := Party(callee.uid, false, sid)] == Parties(caller, Some(Side(callee.uid, sid)))
  {
  }

  lemma NoOtherSession(caller: Side, callee: Option<Side>, c: Call, uid: Uid, sid: string)
    requires c.parties == Parties(caller, callee) && (callee.Some? ==> callee.value.sid != caller.sid)
    requires (uid == caller.uid ==> sid == caller.sid) && (callee.Some? && uid == callee.value.uid ==> sid == callee.value.sid)
    ensures !HasOtherSession(c, uid, sid)
  {
    PartiesAre(caller, callee, c.parties);
  }

  lemma RebindsTo(owner: string -> Uid, st: Start, caller: Side, callee: Option<Side>, c: Call, uid: Uid, sid: string)
    requires Apart(owner, st, caller, callee) && c == Call(Parties(caller, callee), st.seqId) && uid == owner(sid)
    ensures Rebind(c, uid, sid) == Call(Parties(
      if uid == caller.uid then Side(uid, sid) else caller,
      if callee.Some? && uid == callee.value.uid then Some(Side(uid, sid)) else callee), st.seqId)
  {
    StoryShape(owner, st, caller, callee, c);
    PartiesAre(caller, callee, c.parties);
    if uid == caller.uid && sid != caller.sid {
      RebindIs(c, uid, sid, caller.sid);
      MovedCaller(caller, callee, sid);
    } else if callee.Some? && uid == callee.value.uid && sid != callee.value.sid {
      RebindIs(c, uid, sid, callee.value.sid);
      MovedCallee(caller, callee.value, sid);
    } else {
      NoOtherSession(caller, callee, c, uid, sid);
    }
  }

  // ----- one step of the story

  /** What one more action adds to the story. */
  lemma Continues(st: Start, during: seq<Action>, a: Action, longer: seq<Action>)
    requires longer == during + [a]
    ensures Caller(st, longer) == if Moves(a, st.caller) then Side(st.caller, a.sid) else Caller(st, during)
    ensures Callee(st, longer) == match Callee(st, during)
      case None => if IsAcceptance(a, st) then Some(Side(a.note.uid, a.note.sid)) else None
      case Some(callee) => Some(if Moves(a, callee.uid) then Side(callee.uid, a.sid) else callee)
    ensures Attempts(st, longer) == Attempts(st, during) + if Callee(st, during).None? && Answers(a, st) then [Accepted(a.note.saves)] else []
    ensures var to := Receiver(st, during, a);
      Forwarded(st, longer) == Forwarded(st, during) + if to.Some? then [Forward(a.note.event, a.note.uid, to.value.uid, to.value.sid)] else []
  {
    assert longer[..|longer| - 1] == during && longer[|longer| - 1] == a;
  }

  lemma QuietStep(t0: Topic, st: Start, during: seq<Action>, t: Topic, a: Action, longer: seq<Action>)
    requires Tells(t0, st, during, t) && longer == during + [a]
    requires (Callee(st, during).Some? || !Answers(a, st)) && Receiver(st, during, a).None? && !a.Reconnect?
    ensures Tells(t0, st, longer, t)
  {
    Continues(st, during, a, longer);
    assert Attempts(st, during) + [] == Attempts(st, during);
    assert Forwarded(st, during) + [] == Forwarded(st, during);
  }

  lemma OneMoreRecord(t0: Topic, seqId: int, attempts: seq<Record>, r: Record, history: map<int, seq<Record>>)
    requires history == t0.history[seqId := attempts]
    ensures seqId in history && history[seqId := history[seqId] + [r]] == t0.history[seqId := attempts + [r]]
  {
  }

  lemma RespondShows(owner: string -> Uid, t0: Topic, st: Start, caller: Side, attempts: seq<Record>, forwarded: seq<Forward>, t: Topic, n: Note)
    requires Shows(t0, st, caller, None, attempts, forwarded, t) && Apart(owner, st, caller, None)
    requires n.uid == owner(n.sid) && n.uid != st.caller
    ensures var more := forwarded + [Forward(n.event, n.uid, caller.uid, caller.sid)];
      if n.event != Accept then Shows(t0, st, caller, None, attempts, more, Respond(t, n))
      else if !n.saves then Shows(t0, st, caller, None, attempts + [Accepted(false)], forwarded, Respond(t, n))
      else Shows(t0, st, caller, Some(Side(n.uid, n.sid)), attempts + [Accepted(true)], more, Respond(t, n))
  {
    OneMoreRecord(t0, st.seqId, attempts, Accepted(n.saves), t.history);
    RespondIs(owner, st, caller, None, t, n);
    var forward := Forward(n.event, n.uid, caller.uid, caller.sid);
    assert t0.sent + forwarded + [forward] == t0.sent + (forwarded + [forward]);
  }

  lemma RespondTells(owner: string -> Uid, t0: Topic, st: Start, during: seq<Action>, t: Topic, n: Note, longer: seq<Action>)
    requires Tells(t0, st, during, t) && Apart(owner, st, Caller(st, during), Callee(st, during)) && longer == during + [Event(n)]
    requires n.uid == owner(n.sid) && Concerns(Event(n), st) && (n.event == Ringing || n.event == Accept)
    ensures Tells(t0, st, longer, Respond(t, n))
  {
    if Callee(st, during).Some? || n.uid == st.caller {
      RespondIs(owner, st, Caller(st, during), Callee(st, during), t, n);
      QuietStep(t0, st, during, t, Event(n), longer);
    } else {
      Continues(st, during, Event(n), longer);
      RespondShows(owner, t0, st, Caller(st, during), Attempts(st, during), Forwarded(st, during), t, n);
      assert Attempts(st, during) + [] == Attempts(st, during);
      assert Forwarded(st, during) + [] == Forwarded(st, during);
    }
  }

  lemma ForwardTells(t0: Topic, st: Start, during: seq<Action>, t: Topic, n: Note, to: Side, longer: seq<Action>)
    requires Tells(t0, st, during, t) && longer == during + [Event(n)]
    requires IsMetadata(n.event) && Receiver(st, during, Event(n)) == Some(to)
    ensures Tells(t0, st, longer, t.(sent := t.sent + [Forward(n.event, n.uid, to.uid, to.sid)]))
  {
    var forward := Forward(n.event, n.uid, to.uid, to.sid);
    Continues(st, during, Event(n), longer);
    assert Attempts(st, during) + [] == Attempts(st, during);
    assert t0.sent + Forwarded(st, during) + [forward] == t0.sent + (Forwarded(st, during) + [forward]);
  }

  lemma RelayTells(owner: string -> Uid, t0: Topic, st: Start, during: seq<Action>, t: Topic, n: Note, longer: seq<Action>)
    requires Tells(t0, st, during, t) && Apart(owner, st, Caller(st, during), Callee(st, during)) && longer == during + [Event(n)]
    requires Concerns(Event(n), st) && IsMetadata(n.event)
    ensures Tells(t0, st, longer, Relay(t, n))
  {
    RelayIs(owner, st, Caller(st, during), Callee(st, during), t, n);
    var to := Receiver(st, during, Event(n));
    if to.Some? {
      ForwardTells(t0, st, during, t, n, to.value, longer);
    } else {
      QuietStep(t0, st, during, t, Event(n), longer);
    }
  }

  lemma HandleIs(t: Topic, n: Note, st: Start)
    requires t.call.Some? && t.call.value.seqId == st.seqId
    ensures !Concerns(Event(n), st) || n.event == OtherEvent ==> Handle(t, n) == t
    ensures Concerns(Event(n), st) && (n.event == Ringing || n.event == Accept) ==> Handle(t, n) == Respond(t, n)
    ensures Concerns(Event(n), st) && IsMetadata(n.event) ==> Handle(t, n) == Relay(t, n)
    ensures Concerns(Event(n), st) && n.event == HangUp ==>
      Handle(t, n) == if MayHangUp(t.call.value, n) then End(t, Some(n.uid), false, n.saves) else t
  {
  }

  lemma EventTells(owner: string -> Uid, t0: Topic, st: Start, during: seq<Action>, t: Topic, n: Note, longer: seq<Action>, t': Topic)
    requires Tells(t0, st, during, t) && Apart(owner, st, Caller(st, during), Callee(st, during)) && longer == during + [Event(n)]
    requires ActsForOwner(owner, Event(n)) && !Ends(st, during, Event(n)) && t' == Handle(t, n)
    ensures Tells(t0, st, longer, t')
  {
    HandleIs(t, n, st);
    if Concerns(Event(n), st) && (n.event == Ringing || n.event == Accept) {
      RespondTells(owner, t0, st, during, t, n, longer);
    } else if Concerns(Event(n), st) && IsMetadata(n.event) {
      RelayTells(owner, t0, st, during, t, n, longer);
    } else {
      if Concerns(Event(n), st) && n.event == HangUp {
        HangUpIs(owner, st, Caller(st, during), Callee(st, during), t, n);
      }
      QuietStep(t0, st, during, t, Event(n), longer);
    }
  }

  lemma ReconnectTells(owner: string -> Uid, t0: Topic, st: Start, during: seq<Action>, t: Topic, a: Action, longer: seq<Action>)
    requires Tells(t0, st, during, t) && Apart(owner, st, Caller(st, during), Callee(st, during)) && longer == during + [a]
    requires a.Reconnect? && ActsForOwner(owner, a)
    ensures Tells(t0, st, longer, Step(t, a))
  {
    var uid := if a.asUid != 0 then a.asUid else a.sessionUid;
    Continues(st, during, a, longer);
    assert Attempts(st, during) + [] == Attempts(st, during);
    assert Forwarded(st, during) + [] == Forwarded(st, during);
    if uid != 0 {
      RebindsTo(owner, st, Caller(st, during), Callee(st, during), t.call.value, uid, a.sid);
    }
  }

  /** An action that does not end the call continues the story; one that ends it writes the record the story says. */
  lemma StoryStep(owner: string -> Uid, t0: Topic, st: Start, during: seq<Action>, t: Topic, a: Action)
    requires Tells(t0, st, during, t) && Apart(owner, st, Caller(st, during), Callee(st, during)) && ActsForOwner(owner, a)
    ensures if Ends(st, during, a) then Over(t0, st, during, a, Step(t, a)) else Tells(t0, st, during + [a], Step(t, a))
  {
    if Ends(st, during, a) {
      EndStep(owner, t0, st, during, t, a);
    } else {
      match a
      case NewCall(_, _, _) => QuietStep(t0, st, during, t, a, during + [a]);
      case Event(n) => EventTells(owner, t0, st, during, t, n, during + [a], Step(t, a));
      case Reconnect(_, _, _) => ReconnectTells(owner, t0, st, during, t, a, during + [a]);
      case TimerFires(_) => QuietStep(t0, st, during, t, a, during + [a]);
    }
  }

  lemma EndShows(owner: string -> Uid, t0: Topic, st: Start, caller: Side, callee: Option<Side>, attempts: seq<Record>, forwarded: seq<Forward>,
                 t: Topic, from: Option<Uid>, timeout: bool, saves: bool, how: Ending)
    requires Shows(t0, st, caller, callee, attempts, forwarded, t) && Apart(owner, st, caller, callee)
    requires how == if from.None? then (if timeout then Missed else Disconnected)
      else if callee.Some? then Finished else if from.value == st.caller then Missed else Declined
    ensures HasOriginator(t.call.value)
    ensures End(t, from, timeout, saves) == Topic(None, false, t0.history[st.seqId := attempts + [Ended(how, saves)]], t0.sent + forwarded)
  {
    OneMoreRecord(t0, st.seqId, attempts, Ended(how, saves), t.history);
    EndIs(owner, st, caller, callee, t, from, timeout, saves);
  }

  lemma EndStep(owner: string -> Uid, t0: Topic, st: Start, during: seq<Action>, t: Topic, a: Action)
    requires Tells(t0, st, during, t) && Apart(owner, st, Caller(st, during), Callee(st, during)) && ActsForOwner(owner, a)
    requires Ends(st, during, a)
    ensures Over(t0, st, during, a, Step(t, a))
  {
    var caller, callee := Caller(st, during), Callee(st, during);
    var from := if a.Event? then Some(a.note.uid) else None;
    EndShows(owner, t0, st, caller, callee, Attempts(st, during), Forwarded(st, during), t, from, a.TimerFires?, Saves(a), How(st, during, a));
    if a.Event? {
      HandleIs(t, a.note, st);
      HangUpIs(owner, st, caller, callee, t, a.note);
    }
  }

  // ----- the whole story

  lemma {:induction false} RunSnoc(t: Topic, actions: seq<Action>, a: Action)
    ensures Run(t, actions + [a]) == Step(Run(t, actions), a)
    decreases |actions|
  {
    if actions == [] {
      assert actions + [a] == [a];
      NextAction(t, a, []);
      assert [a] + [] == [a];
    } else {
      assert (actions + [a])[1..] == actions[1..] + [a];
      RunSnoc(Step(t, actions[0]), actions[1..], a);
    }
  }

  /** The call started by st in the topic t0 is there after each of the actions. */
  ghost predicate Lasts(t0: Topic, st: Start, during: seq<Action>) {
    forall k | 0 <= k <= |during| :: Run(Begun(t0, st), during[..k]).call.Some?
  }

  ghost function Begun(t0: Topic, st: Start): Topic {
    Step(t0, NewCall(st.caller, st.sid, st.seqId))
  }

  /** The actions since the start of a call tell the state of the topic. */
  lemma {:induction false} TheStory(owner: string -> Uid, t0: Topic, st: Start, during: seq<Action>)
    requires Enabled(t0, NewCall(st.caller, st.sid, st.seqId)) && ActsForOwner(owner, NewCall(st.caller, st.sid, st.seqId))
    requires (forall a <- during :: ActsForOwner(owner, a)) && Lasts(t0, st, during)
    ensures Tells(t0, st, during, Run(Begun(t0, st), during))
  {
    if during == [] {
      assert t0.sent + [] == t0.sent;
      assert Parties(Side(st.caller, st.sid), None) == map[st.sid := Party(st.caller, true, st.sid)];
    } else {
      var k := |during| - 1;
      var init, a := during[..k], during[k];
      assert during == init + [a] && a in during;
      forall j | 0 <= j <= k ensures Run(Begun(t0, st), init[..j]).call.Some? { assert init[..j] == during[..j]; }
      TheStory(owner, t0, st, init);
      SidesApart(owner, st, init);
      StoryStep(owner, t0, st, init, Run(Begun(t0, st), init), a);
      RunSnoc(Begun(t0, st), init, a);
      assert during[..|during|] == during;
    }
  }

  ghost predicate IsAccepted(st: Start, during: seq<Action>) {
    exists a <- during :: IsAcceptance(a, st)
  }

  lemma {:induction false} AcceptedMeansCallee(st: Start, during: seq<Action>)
    ensures Callee(st, during).Some? <==> IsAccepted(st, during)
  {
    if during != [] {
      var k := |during| - 1;
      AcceptedMeansCallee(st, during[..k]);
      assert during == during[..k] + [during[k]];
    }
  }

  /** The record that fits the last action of a call and what came before it. */
  ghost predicate Fits(st: Start, during: seq<Action>, a: Action, how: Ending) {
    && (how == Finished <==> a.Event? && IsAccepted(st, during))
    && (how == Declined <==> a.Event? && !IsAccepted(st, during) && a.note.uid != st.caller)
    && (how == Missed <==> a.TimerFires? || (a.Event? && !IsAccepted(st, during) && a.note.uid == st.caller))
    && (how == Disconnected <==> a.Disconnect?)
  }

  lemma HowFits(st: Start, during: seq<Action>, a: Action)
    requires Ends(st, during, a)
    ensures Fits(st, during, a, How(st, during, a))
  {
    AcceptedMeansCallee(st, during);
  }

  /**
   Whatever ends a call, in any topic and after any actions since its start, leaves one more record: "finished" exactly
   for a hang-up after an acceptance was saved, "declined" for a hang-up before that by another user than the caller,
   "missed" for one by the caller or when the time is up, and "disconnected" when the server ends it.
   */
  lemma FinalRecordExactly(owner: string -> Uid, t0: Topic, st: Start, during: seq<Action>, a: Action) returns (how: Ending, saved: bool)
    requires Enabled(t0, NewCall(st.caller, st.sid, st.seqId)) && ActsForOwner(owner, NewCall(st.caller, st.sid, st.seqId))
    requires (forall b <- during :: ActsForOwner(owner, b)) && ActsForOwner(owner, a) && Lasts(t0, st, during)
    requires Step(Run(Begun(t0, st), during), a).call.None?
    ensures Fits(st, during, a, how)
    ensures var t := Run(Begun(t0, st), during);
      && st.seqId in t.history
      && Step(t, a) == Topic(None, false, t.history[st.seqId := t.history[st.seqId] + [Ended(how, saved)]], t.sent)
  {
    var t := Run(Begun(t0, st), during);
    TheStory(owner, t0, st, during);
    SidesApart(owner, st, during);
    StoryStep(owner, t0, st, during, t, a);
    how, saved := How(st, during, a), Saves(a);
    HowFits(st, during, a);
    OneMoreRecord(t0, st.seqId, Attempts(st, during), Ended(how, saved), t.history);
  }

  /** A call ends exactly on a disconnect, when the time is up before an acceptance, or on a hang-up of a user who may. */
  lemma EndsExactly(owner: string -> Uid, t0: Topic, st: Start, during: seq<Action>, a: Action)
    requires Enabled(t0, NewCall(st.caller, st.sid, st.seqId)) && ActsForOwner(owner, NewCall(st.caller, st.sid, st.seqId))
    requires (forall b <- during :: ActsForOwner(owner, b)) && ActsForOwner(owner, a) && Lasts(t0, st, during)
    ensures Step(Run(Begun(t0, st), during), a).call.None? <==>
      a.Disconnect? || (a.TimerFires? && !IsAccepted(st, during)) || HangsUp(st, during, a)
  {
    TheStory(owner, t0, st, during);
    SidesApart(owner, st, during);
    AcceptedMeansCallee(st, during);
    StoryStep(owner, t0, st, during, Run(Begun(t0, st), during), a);
  }

  /** In every run in which there is a call at the end, the run since its start is such a story. */
  lemma {:induction false} EveryCallHasAStory(actions: seq<Action>) returns (i: nat)
    requires Run(IDLE, actions).call.Some?
    ensures i < |actions| && actions[i].NewCall? && Enabled(Run(IDLE, actions[..i]), actions[i])
    ensures var a := actions[i];
      var st, t0 := Start(a.uid, a.sid, a.seqId), Run(IDLE, actions[..i]);
      Lasts(t0, st, actions[i + 1..]) && Run(Begun(t0, st), actions[i + 1..]) == Run(IDLE, actions)
  {
    var k := |actions| - 1;
    assert actions != [];
    var init, a := actions[..k], actions[k];
    assert actions == init + [a];
    RunSnoc(IDLE, init, a);
    if Run(IDLE, init).call.Some? {
      i := EveryCallHasAStory(init);
      assert actions[..i] == init[..i] && actions[i + 1..] == init[i + 1..] + [a];
      LastsLonger(Run(IDLE, init[..i]), Start(actions[i].uid, actions[i].sid, actions[i].seqId), init[i + 1..], a);
    } else {
      i := k;
      assert actions[k + 1..] == [];
      assert a.NewCall?;
    }
  }

  lemma LastsLonger(t0: Topic, st: Start, during: seq<Action>, a: Action)
    requires Lasts(t0, st, during) && Step(Run(Begun(t0, st), during), a).call.Some?
    ensures Lasts(t0, st, during + [a]) && Run(Begun(t0, st), during + [a]) == Step(Run(Begun(t0, st), during), a)
  {
    RunSnoc(Begun(t0, st), during, a);
    forall k | 0 <= k <= |during| + 1 ensures Run(Begun(t0, st), (during + [a])[..k]).call.Some? {
      if k <= |during| {
        assert (during + [a])[..k] == during[..k];
      } else {
        assert (during + [a])[..k] == during + [a];
      }
    }
  }
}
