/** A topic's contact list and the handler of presence requests that updates it. */
module PresenceTopic {
  import opened Options
  import opened Presence

  class ContactList {
    const name: string
    const isMe: bool
    const isProxy: bool
    const peer: string -> Option<string>
    var inactive: bool
    var perSubs: map<string, Contact>

    ghost function State(): Topic
      reads this
    {
      Topic(name, isMe, inactive, isProxy, perSubs, peer)
    }

    constructor (name: string, isMe: bool, isProxy: bool, peer: string -> Option<string>)
      ensures State() == Topic(name, isMe, false, isProxy, map[], peer)
    {
      this.name, this.isMe, this.isProxy, this.peer := name, isMe, isProxy, peer;
      inactive, perSubs := false, map[];
    }

    method Add(topic: string, online: bool, enabled: bool)
      modifies this`perSubs
      ensures State() == AddToPerSubs(old(State()), topic, Contact(online, enabled))
    {
      if topic == name {
        return;
      }
      var key := topic;
      if peer(topic).Some? {
        key := peer(topic).value;
      }
      perSubs := perSubs[key := Contact(online, enabled)];
    }

    /** Load the subscriptions of the user. */
    method LoadContacts(subs: seq<Subscription>)
      modifies this`perSubs
      ensures State() == Load(old(State()), subs)
    {
      for i := 0 to |subs|
        invariant State() == Load(old(State()), subs[..i])
      {
        assert subs[..i + 1][..i] == subs[..i];
        Add(subs[i].topic, false, subs[i].presencer);
      }
      assert subs[..|subs|] == subs;
    }

    /** The part that concerns a contact on the list; fails on an unknown command. */
    method UpdateListed(from: string, cmd: string, status: string) returns (ok: bool, forward: string)
      requires from in perSubs && IsStatus(status) && cmd != "rem"
      modifies this`perSubs
      ensures ok <==> KnownCommand(cmd)
      ensures ok ==> var change := Update(Some(old(perSubs)[from]), cmd, status);
        forward == change.forward && change.contact.Some? && perSubs == old(perSubs)[from := change.contact.value]
      ensures ok ==> var was, now := old(perSubs)[from], perSubs[from];
        && now.enabled == (cmd == "en" || (cmd == "" && was.enabled))
        && now.online == (now.enabled && (status == "on" || (was.online && status != "off" && status != "gone")))
      ensures ok ==> var was := old(perSubs)[from];
        var changes := Reported(status).Some? && was.online != (status == "on");
        var news := if cmd == "" then was.enabled && changes else if cmd == "en" then !was.enabled || changes else was.enabled && was.online;
        forward == if news && Reported(status).Some? then status else ""
      ensures !ok ==> perSubs == old(perSubs)
    {
      ok, forward := true, Forwardable(status);
      var online := Reported(status);
      var psd := perSubs[from];
      if cmd == "" {
        if !psd.enabled || online.None? || psd.online == online.value {
          forward := "";
        }
      } else if cmd == "en" {
        if !psd.enabled {
          psd := psd.(enabled := true);
        } else if online.None? || psd.online == online.value {
          forward := "";
        }
      } else if cmd == "dis" {
        if psd.enabled {
          psd := psd.(enabled := false);
          if !psd.online {
            forward := "";
          }
        } else {
          forward := "";
        }
      } else {
        return false, "";
      }
      if !psd.enabled {
        psd := psd.(online := false);
      } else if online.Some? {
        psd := psd.(online := online.value);
      }
      perSubs := perSubs[from := psd];
    }

    /** A presence request from another topic. `panicked` is the crash on an unknown command. */
    method HandleRequest(from: string, what: string, wantReply: bool)
      returns (panicked: bool, forward: string, reply: Option<Reply>)
      modifies this`perSubs
      ensures panicked <==> ProcPresReq(old(State()), from, what, wantReply).Panic?
      ensures !panicked ==> ProcPresReq(old(State()), from, what, wantReply) == Handled(State(), forward, reply)
      ensures panicked ==> State() == old(State())
      ensures inactive ==> forward == "" && State() == old(State())
      ensures !inactive && isProxy ==> forward == what && State() == old(State())
      ensures !inactive && !isProxy && !IsStatus(Status(what)) ==> forward == Status(what) && State() == old(State())
      ensures !inactive && !isProxy && IsStatus(Status(what)) && !isMe ==> forward == Forwardable(Status(what)) && State() == old(State())
      ensures !inactive && !isProxy && IsStatus(Status(what)) && isMe && EffectiveCommand(what) == "rem" ==>
        && perSubs == old(perSubs) - {from}
        && forward == if from !in old(perSubs) || (!old(perSubs)[from].enabled && Status(what) == "off") then "" else Forwardable(Status(what))
      ensures !inactive && !isProxy && IsStatus(Status(what)) && isMe && EffectiveCommand(what) != "rem" && from !in old(perSubs) ==>
        forward == if EffectiveCommand(what) == "en" then Forwardable(Status(what)) else ""
      ensures reply.Some? <==>
        !panicked && !inactive && !isProxy && wantReply && (Status(what) == "on" || Status(what) == "?unkn")
      ensures reply.Some? ==> var leaves := isMe && from in old(perSubs) && EffectiveCommand(what) == "rem";
        reply.value == Reply(if leaves then "off+rem" else "on", Status(what) == "?unkn")
    {
      panicked, reply := false, None;
      if inactive {
        return false, "", None;
      }
      if isProxy {
        return false, what, None;
      }
      var status, cmd := Status(what), Command(what);
      if !IsStatus(status) {
        return false, status, None;
      }
      if status == "gone" {
        cmd := "rem";
      }
      forward := Forwardable(status);
      var replyAs := "on";
      if isMe {
        if from in perSubs {
          if cmd == "rem" {
            replyAs := "off+rem";
            if !perSubs[from].enabled && forward == "off" {
              forward := "";
            }
            perSubs := perSubs - {from};
          } else {
            var ok;
            ok, forward := UpdateListed(from, cmd, status);
            if !ok {
              return true, "", None;
            }
          }
        } else if cmd != "rem" {
          Add(from, status == "on", cmd == "en");
          if cmd != "en" {
            forward := "";
          }
        } else {
          forward := "";
        }
      }
      if (status == "on" || status == "?unkn") && wantReply {
        reply := Some(Reply(replyAs, status == "?unkn"));
      }
    }
  }
}
