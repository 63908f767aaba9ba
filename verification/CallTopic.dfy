/** The topic that runs video calls: its fields are updated event by event. */
module CallTopic {
  import opened Options
  import opened VideoCall

  /** The record that fits who ended the call, none for the server, and the stage it was in. */
  ghost predicate FitsEnd(c: Call, from: Option<Uid>, timeout: bool, how: Ending) {
    var byCaller := from.Some? && exists k <- c.parties :: c.parties[k].isOriginator && c.parties[k].uid == from.value;
    && (how == Finished <==> from.Some? && |c.parties| == 2)
    && (how == Declined <==> from.Some? && |c.parties| != 2 && !byCaller)
    && (how == Missed <==> (byCaller && |c.parties| != 2) || (from.None? && timeout))
    && (how == Disconnected <==> from.None? && !timeout)
  }

  class TopicWithCall {
    var call: Option<Call>
    var timer: bool
    var history: map<int, seq<Record>>
    var sent: seq<Forward>

    ghost function State(): Topic
      reads this
    {
      Topic(call, timer, history, sent)
    }

    ghost predicate Valid()
      reads this
    {
      call.Some? ==> WellFormed(call.value)
    }

    constructor ()
      ensures State() == IDLE && Valid()
    {
      call, timer, history, sent := None, false, map[], [];
    }

    /** Look for the originator among the parties, in any order. */
    method GetCallOriginator() returns (p: Option<Party>)
      ensures p.Some? <==> call.Some? && HasOriginator(call.value)
      ensures p.Some? ==> exists k <- call.value.parties :: call.value.parties[k] == p.value && p.value.isOriginator
      ensures p.Some? && WellFormed(call.value) ==> p.value == Originator(call.value)
    {
      if call.None? {
        return None;
      }
      var parties := call.value.parties;
      var left := parties.Keys;
      while left != {}
        invariant left <= parties.Keys
        invariant forall k <- parties.Keys - left :: !parties[k].isOriginator
        decreases |left|
      {
        var k :| k in left;
        if parties[k].isOriginator {
          if WellFormed(call.value) { OriginatorIs(call.value, k); }
          return Some(parties[k]);
        }
        left := left - {k};
      }
      return None;
    }

    /** The sender is a party by its session or by its user. */
    method IsCallParticipant(sid: string, uid: Uid) returns (found: bool)
      ensures found <==> call.Some? && Participates(call.value, sid, uid)
    {
      if call.None? {
        return false;
      }
      var parties := call.value.parties;
      if sid in parties {
        return true;
      }
      var left := parties.Keys;
      while left != {}
        invariant left <= parties.Keys
        invariant forall k <- parties.Keys - left :: parties[k].uid != uid
        decreases |left|
      {
        var k :| k in left;
        if parties[k].uid == uid {
          return true;
        }
        left := left - {k};
      }
      return false;
    }

    /** Save a replacement of the call message; the store may refuse. */
    method Save(seqId: int, record: Record)
      modifies this`history
      ensures history == Log(old(history), seqId, record)
    {
      var earlier := if seqId in history then history[seqId] else [];
      history := history[seqId := earlier + [record]];
    }

    method HandleCallInvite(uid: Uid, sid: string, seqId: int)
      modifies this
      ensures State() == Invite(old(State()), uid, sid, seqId)
      ensures uid != 0 ==> Valid()
    {
      call := Some(Call(map[sid := Party(uid, true, sid)], seqId));
      timer := true;
      history := history[seqId := []];
      assert call.value.parties[sid].isOriginator;
    }

    /** End the call at the request of a user, or of the server if there is none. */
    method MaybeEndCallInProgress(from: Option<Uid>, timeout: bool, saves: bool)
      requires Valid()
      modifies this
      ensures State() == if old(call).None? then old(State()) else End(old(State()), from, timeout, saves)
      ensures call.None?
      ensures old(call).Some? ==> !timer && sent == old(sent) && exists how ::
        && FitsEnd(old(call).value, from, timeout, how)
        && history == Log(old(history), old(call).value.seqId, Ended(how, saves))
    {
      if call.None? {
        return;
      }
      timer := false;
      var originator := GetCallOriginator();
      var how := Disconnected;
      if from.Some? && |call.value.parties| == 2 {
        how := Finished;
      } else if from.Some? {
        if from.value == originator.value.uid {
          how := Missed;
        } else {
          how := Declined;
        }
      } else if timeout {
        how := Missed;
      }
      assert FitsEnd(call.value, from, timeout, how);
      Save(call.value.seqId, Ended(how, saves));
      call := None;
    }

    method TerminateCallInProgress(timeout: bool, saves: bool)
      requires Valid()
      modifies this
      ensures State() == Terminate(old(State()), timeout, saves)
      ensures call.None?
    {
      if call.None? {
        return;
      }
      MaybeEndCallInProgress(None, timeout, saves);
    }

    /** Look for an entry of the user under another session, in any order. */
    static method FindOtherSession(parties: map<string, Party>, uid: Uid, sid: string) returns (key: Option<string>)
      ensures key.Some? ==> key.value in parties && parties[key.value].uid == uid && key.value != sid
      ensures key.None? ==> forall k <- parties :: !(parties[k].uid == uid && k != sid)
    {
      var left := parties.Keys;
      while left != {}
        invariant left <= parties.Keys
        invariant forall k <- parties :: k in left || !(parties[k].uid == uid && k != sid)
        decreases |left|
      {
        var k :| k in left;
        if parties[k].uid == uid && k != sid {
          return Some(k);
        }
        left := left - {k};
      }
      return None;
    }

    /** A participant subscribed again: bind its entry to the new session. */
    method RefreshCallPartySession(asUid: Uid, sessionUid: Uid, sid: string)
      requires Valid()
      modifies this`call
      ensures State() == Refresh(old(State()), if asUid != 0 then asUid else sessionUid, sid)
      ensures old(call).Some? && !Collides(old(call).value, if asUid != 0 then asUid else sessionUid, sid) ==> Valid()
    {
      if call.None? {
        return;
      }
      var uid := if asUid != 0 then asUid else sessionUid;
      if uid == 0 {
        return;
      }
      ghost var c := call.value;
      var key := FindOtherSession(call.value.parties, uid, sid);
      RebindIsTransparent(c, uid, sid);
      if key.Some? {
        RebindIs(c, uid, sid, key.value);
        var p := call.value.parties[key.value];
        call := Some(call.value.(parties := (call.value.parties - {key.value})[sid := p.(sid := sid)]));
        assert call.value == Moved(c, key.value, sid);
      }
    }

    method HandleRingingOrAccept(n: Note)
      requires Valid() && call.Some? && (n.event == Ringing || n.event == Accept)
      modifies this
      ensures State() == Respond(old(State()), n)
      ensures n.uid != 0 ==> Valid()
    {
      var c := call.value;
      if |c.parties| != 1 {
        return;
      }
      var originator := GetCallOriginator();
      var o := originator.value;
      if o.sid == n.sid || o.uid == n.uid {
        return;
      }
      if n.event == Accept {
        Save(c.seqId, Accepted(n.saves));
        if !n.saves {
          return;
        }
        SoleParty(c);
        if n.uid != 0 { JoinKeepsShape(c, o, n.uid, n.sid); }
        call := Some(c.(parties := c.parties[n.sid := Party(n.uid, false, n.sid)]));
        timer := false;
      }
      sent := sent + [Forward(n.event, n.uid, o.uid, o.sid)];
    }

    method HandleMetadata(n: Note)
      requires Valid() && call.Some?
      modifies this`sent
      ensures State() == Relay(old(State()), n)
    {
      var parties := call.value.parties;
      if |parties| != 2 || n.sid !in parties {
        return;
      }
      var left := parties.Keys;
      while left != {}
        invariant left <= parties.Keys && sent == old(sent)
        invariant forall k <- parties :: k in left || k == n.sid
        decreases |left|
      {
        var k :| k in left;
        if k != n.sid {
          OtherIs(call.value, n.sid, k);
          sent := sent + [Forward(n.event, n.uid, parties[k].uid, parties[k].sid)];
          return;
        }
        left := left - {k};
      }
    }

    method HandleHangUp(n: Note)
      requires Valid() && call.Some?
      modifies this
      ensures State() == if MayHangUp(old(call).value, n) then End(old(State()), Some(n.uid), false, n.saves) else old(State())
    {
      if |call.value.parties| == 2 {
        var participant := IsCallParticipant(n.sid, n.uid);
        if !participant {
          return;
        }
      } else if |call.value.parties| == 1 {
        var originator := GetCallOriginator();
        if n.uid == originator.value.uid && originator.value.sid != n.sid {
          return;
        }
      }
      MaybeEndCallInProgress(Some(n.uid), false, n.saves);
    }

    /** An event on an existing call. */
    method HandleCallEvent(n: Note)
      requires Valid()
      modifies this
      ensures State() == Handle(old(State()), n)
      ensures n.uid != 0 ==> Valid()
    {
      if call.None? {
        return;
      }
      if !n.active {
        return;
      }
      if call.value.seqId != n.seqId {
        return;
      }
      if !n.member {
        return;
      }
      match n.event
      case Ringing => HandleRingingOrAccept(n);
      case Accept => HandleRingingOrAccept(n);
      case Offer => HandleMetadata(n);
      case Answer => HandleMetadata(n);
      case IceCandidate => HandleMetadata(n);
      case HangUp => HandleHangUp(n);
      case OtherEvent =>
    }
  }
}
