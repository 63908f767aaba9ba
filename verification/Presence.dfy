/**
 The exchange of presence notifications between topics.

 A request is a status, optionally followed by "+" and a command. A 'me' topic keeps a record of every
 contact and decides what to forward to its clients and what to reply.
 */
module Presence {
  import opened Options

  datatype Contact = Contact(online: bool, enabled: bool)

  /** `peer` gives the other user of a P2P topic name as seen from this topic, none for other names. */
  datatype Topic = Topic(name: string, isMe: bool, inactive: bool, isProxy: bool, perSubs: map<string, Contact>,
                         peer: string -> Option<string>)

  datatype Reply = Reply(what: string, wantReply: bool)

  /** `forward` is what is passed on to the clients, "" for nothing. */
  datatype Outcome = Handled(topic: Topic, forward: string, reply: Option<Reply>) | Panic

  // ----- requests

  function UpToPlus(s: string): nat {
    if s == [] || s[0] == '+' then 0 else 1 + UpToPlus(s[1..])
  }

  lemma UpToPlusFits(s: string)
    ensures UpToPlus(s) <= |s|
  {
  }

  function Status(what: string): string {
    UpToPlusFits(what);
    what[..UpToPlus(what)]
  }

  /** The part between the first and the second "+". */
  function Command(what: string): string {
    UpToPlusFits(what);
    if UpToPlus(what) == |what| then "" else Status(what[UpToPlus(what) + 1..])
  }

  predicate IsStatus(s: string) {
    s == "on" || s == "off" || s == "?none" || s == "gone" || s == "?unkn"
  }

  /** The online status a request reports; none if it leaves it open. */
  function Reported(status: string): Option<bool> {
    if status == "on" then Some(true)
    else if status == "off" || status == "gone" then Some(false)
    else None
  }

  /** "gone" means "off+rem". */
  function EffectiveCommand(what: string): string {
    if Status(what) == "gone" then "rem" else Command(what)
  }

  function Forwardable(status: string): string {
    if Reported(status).Some? then status else ""
  }

  // ----- one contact

  datatype Change = Change(contact: Option<Contact>, forward: string)

  predicate KnownCommand(cmd: string) {
    cmd == "" || cmd == "en" || cmd == "dis" || cmd == "rem"
  }

  /** The record of a listed contact after a command other than "rem". */
  function NewRecord(c: Contact, cmd: string, online: Option<bool>): Contact {
    var enabled := if cmd == "en" then true else if cmd == "dis" then false else c.enabled;
    Contact(enabled && (if online.Some? then online.value else c.online), enabled)
  }

  /** Whether a listed contact's request is passed on to the clients. */
  predicate IsNews(c: Contact, cmd: string, online: Option<bool>) {
    var changes := online.Some? && c.online != online.value;
    if cmd == "en" then !c.enabled || changes
    else if cmd == "dis" then c.enabled && c.online
    else c.enabled && changes
  }

  /** What a request does to the record of its sender; a new sender is recorded. */
  function Update(contact: Option<Contact>, cmd: string, status: string): Change
    requires contact.Some? ==> KnownCommand(cmd)
  {
    var online, forward := Reported(status), Forwardable(status);
    match contact
    case None =>
      if cmd == "rem" then Change(None, "")
      else Change(Some(Contact(online == Some(true), cmd == "en")), if cmd == "en" then forward else "")
    case Some(c) =>
      if cmd == "rem" then Change(None, if !c.enabled && forward == "off" then "" else forward)
      else Change(Some(NewRecord(c, cmd, online)), if IsNews(c, cmd, online) then forward else "")
  }

  // ----- a topic

  function Lookup(t: Topic, who: string): Option<Contact> {
    if who in t.perSubs then Some(t.perSubs[who]) else None
  }

  /** Record a contact, unless it is the topic itself; a P2P topic is recorded under the other user. */
  function AddToPerSubs(t: Topic, topic: string, c: Contact): Topic {
    if topic == t.name then t
    else t.(perSubs := t.perSubs[(if t.peer(topic).Some? then t.peer(topic).value else topic) := c])
  }

  function Store(t: Topic, from: string, before: Option<Contact>, after: Option<Contact>): Topic {
    match after
    case None => t.(perSubs := t.perSubs - {from})
    case Some(c) => if before.Some? then t.(perSubs := t.perSubs[from := c]) else AddToPerSubs(t, from, c)
  }

  function ProcPresReq(t: Topic, from: string, what: string, wantReply: bool): Outcome {
    var status, cmd := Status(what), EffectiveCommand(what);
    if t.inactive then Handled(t, "", None)
    else if t.isProxy then Handled(t, what, None)
    else if !IsStatus(status) then Handled(t, status, None)
    else
      var contact := Lookup(t, from);
      if t.isMe && contact.Some? && !KnownCommand(cmd) then Panic
      else
        var change := if t.isMe then Update(contact, cmd, status) else Change(None, Forwardable(status));
        var replyAs := if t.isMe && contact.Some? && cmd == "rem" then "off+rem" else "on";
        Handled(
          if t.isMe then Store(t, from, contact, change.contact) else t,
          change.forward,
          if (status == "on" || status == "?unkn") && wantReply then Some(Reply(replyAs, status == "?unkn")) else None)
  }

  datatype Subscription = Subscription(topic: string, presencer: bool)

  /** The contact list of a user with the given subscriptions, in the order of loading. */
  function Load(t: Topic, subs: seq<Subscription>): Topic {
    if subs == [] then t
    else
      var last := subs[|subs| - 1];
      AddToPerSubs(Load(t, subs[..|subs| - 1]), last.topic, Contact(false, last.presencer))
  }

  // ----- the clients' view of a contact

  /** The status clients show for a contact after a notification. */
  function NextView(view: bool, forward: string): bool {
    if forward == "on" then true else if forward == "off" || forward == "gone" then false else view
  }

  /** Clients show what is recorded, an absent contact as offline, and a disabled contact is offline. */
  predicate Consistent(view: bool, contact: Option<Contact>) {
    && (view <==> contact.Some? && contact.value.online)
    && (contact.Some? && contact.value.online ==> contact.value.enabled)
  }

  /**
   The requests that leave record and view in agreement. An unlisted contact must not report "on"
   without "+en"; an online contact must be removed or disabled together with the report that it is off.
   */
  predicate Safe(contact: Option<Contact>, what: string) {
    var status, cmd := Status(what), EffectiveCommand(what);
    IsStatus(status) ==>
      match contact
      case None => status == "on" ==> cmd == "en" || cmd == "rem"
      case Some(c) =>
        && (cmd == "rem" ==> status != "on" && (c.online ==> Reported(status).Some?))
        && (cmd == "dis" && c.online ==> status == "off")
  }

  ghost predicate Watching(t: Topic, who: string) {
    t.isMe && !t.inactive && !t.isProxy && who != t.name && t.peer(who).None?
  }

  /** One request keeps the agreement if and only if it is safe. */
  lemma SafeExactly(t: Topic, who: string, what: string, wantReply: bool, view: bool)
    requires Watching(t, who) && Consistent(view, Lookup(t, who)) && !ProcPresReq(t, who, what, wantReply).Panic?
    ensures var r := ProcPresReq(t, who, what, wantReply);
      && Watching(r.topic, who)
      && (Consistent(NextView(view, r.forward), Lookup(r.topic, who)) <==> Safe(Lookup(t, who), what))
  {
  }

  /** The name under which a subscription is listed. */
  function ListedAs(t: Topic, topic: string): string {
    if t.peer(topic).Some? then t.peer(topic).value else topic
  }

  ghost predicate Listed(t: Topic, subs: seq<Subscription>, who: string) {
    exists s <- subs :: s.topic != t.name && ListedAs(t, s.topic) == who
  }

  lemma AddLists(t: Topic, l: Topic, last: Subscription, who: string)
    requires l == t.(perSubs := l.perSubs) && Consistent(false, Lookup(l, who))
    ensures var m := AddToPerSubs(l, last.topic, Contact(false, last.presencer));
      && m == t.(perSubs := m.perSubs) && Consistent(false, Lookup(m, who))
      && (who in m.perSubs <==> who in l.perSubs || (last.topic != t.name && ListedAs(t, last.topic) == who))
      && (who in m.perSubs ==>
            m.perSubs[who] == if last.topic != t.name && ListedAs(t, last.topic) == who then Contact(false, last.presencer) else l.perSubs[who])
  {
  }

  lemma ListedNext(t: Topic, subs: seq<Subscription>, last: Subscription, who: string)
    ensures Listed(t, subs + [last], who) <==> Listed(t, subs, who) || (last.topic != t.name && ListedAs(t, last.topic) == who)
  {
    assert last in subs + [last];
    assert forall s <- subs :: s in subs + [last];
  }

  /** The last of the subscriptions that is listed as `who`. */
  ghost predicate LastListed(t: Topic, subs: seq<Subscription>, who: string, i: nat) {
    && i < |subs| && subs[i].topic != t.name && ListedAs(t, subs[i].topic) == who
    && forall j | i < j < |subs| :: !(subs[j].topic != t.name && ListedAs(t, subs[j].topic) == who)
  }

  /**
   After loading, exactly the subscriptions other than the topic itself are listed; every contact starts offline, in
   agreement with clients that have been told nothing, and enabled exactly if its last subscription is a presencer.
   */
  lemma {:induction false} LoadedContactsAreOffline(t: Topic, subs: seq<Subscription>, who: string)
    requires t.perSubs == map[]
    ensures var l := Load(t, subs);
      && l == t.(perSubs := l.perSubs) && (who in l.perSubs <==> Listed(t, subs, who)) && Consistent(false, Lookup(l, who))
      && forall i: nat :: LastListed(t, subs, who, i) ==> who in l.perSubs && l.perSubs[who] == Contact(false, subs[i].presencer)
  {
    if subs != [] {
      var init, last := subs[..|subs| - 1], subs[|subs| - 1];
      LoadedContactsAreOffline(t, init, who);
      AddLists(t, Load(t, init), last, who);
      ListedNext(t, init, last, who);
      assert subs == init + [last];
      forall i: nat | LastListed(t, subs, who, i)
        ensures who in Load(t, subs).perSubs && Load(t, subs).perSubs[who] == Contact(false, subs[i].presencer)
      {
        if i < |init| { LastListedBefore(t, init, last, who, i); }
      }
    }
  }

  lemma LastListedBefore(t: Topic, init: seq<Subscription>, last: Subscription, who: string, i: nat)
    requires i < |init| && LastListed(t, init + [last], who, i)
    ensures LastListed(t, init, who, i) && !(last.topic != t.name && ListedAs(t, last.topic) == who)
  {
    assert (init + [last])[|init|] == last;
    assert forall j | 0 <= j < |init| :: (init + [last])[j] == init[j];
  }

  datatype Request = Request(from: string, what: string, wantReply: bool)

  /** After every request of a run the clients' view of `who` agrees with the record. */
  ghost predicate AlwaysConsistent(t: Topic, who: string, view: bool, requests: seq<Request>)
    decreases |requests|
  {
    Consistent(view, Lookup(t, who)) &&
    (requests != [] ==>
       var q := requests[0];
       var r := ProcPresReq(t, q.from, q.what, q.wantReply);
       r.Handled? ==>
         AlwaysConsistent(r.topic, who, if q.from == who then NextView(view, r.forward) else view, requests[1..]))
  }

  /** Every request of `who` in a run is safe at the time it arrives. */
  predicate AlwaysSafe(t: Topic, who: string, requests: seq<Request>)
    decreases |requests|
  {
    requests != [] ==>
      var q := requests[0];
      var r := ProcPresReq(t, q.from, q.what, q.wantReply);
      r.Handled? ==> (q.from == who ==> Safe(Lookup(t, who), q.what)) && AlwaysSafe(r.topic, who, requests[1..])
  }

  /** A request from somebody else does not touch the record of `who`. */
  lemma OthersDoNotMatter(t: Topic, who: string, q: Request)
    requires Watching(t, who) && q.from != who && t.peer(q.from) != Some(who)
    ensures var r := ProcPresReq(t, q.from, q.what, q.wantReply);
      r.Handled? ==> Watching(r.topic, who) && Lookup(r.topic, who) == Lookup(t, who) && r.topic.peer == t.peer
  {
    forall before, after { StoreElsewhere(t, who, q.from, before, after); }
  }

  lemma StoreElsewhere(t: Topic, who: string, from: string, before: Option<Contact>, after: Option<Contact>)
    requires Watching(t, who) && from != who && t.peer(from) != Some(who)
    ensures var s := Store(t, from, before, after);
      Watching(s, who) && Lookup(s, who) == Lookup(t, who) && s.peer == t.peer
  {
  }

  /** In every run clients and record agree throughout exactly when every request of the contact is safe. */
  lemma {:induction false} ViewMatchesRecord(t: Topic, who: string, view: bool, requests: seq<Request>)
    requires Watching(t, who) && Consistent(view, Lookup(t, who))
    requires forall q <- requests :: t.peer(q.from) != Some(who)
    ensures AlwaysConsistent(t, who, view, requests) <==> AlwaysSafe(t, who, requests)
    decreases |requests|
  {
    if requests != [] {
      var q := requests[0];
      var r := ProcPresReq(t, q.from, q.what, q.wantReply);
      if r.Handled? {
        if q.from == who {
          SafeExactly(t, who, q.what, q.wantReply, view);
          assert r.topic.peer == t.peer;
          if Safe(Lookup(t, who), q.what) {
            ViewMatchesRecord(r.topic, who, NextView(view, r.forward), requests[1..]);
          }
        } else {
          OthersDoNotMatter(t, who, q);
          ViewMatchesRecord(r.topic, who, view, requests[1..]);
        }
      }
    }
  }

  /** on, off, ?none or ?unkn, plain or with "+en", and off+dis. */
  predicate Everyday(what: string) {
    var status, cmd := Status(what), Command(what);
    IsStatus(status) && status != "gone" && (cmd == "" || cmd == "en" || (cmd == "dis" && status == "off"))
  }

  lemma {:induction false} UpToPlusAt(a: string, b: string)
    requires '+' !in a
    ensures UpToPlus(a) == |a| && UpToPlus(a + "+" + b) == |a|
  {
    if a != [] {
      assert (a + "+" + b)[1..] == a[1..] + "+" + b;
      UpToPlusAt(a[1..], b);
    }
  }

  lemma Plain(s: string)
    requires '+' !in s
    ensures Status(s) == s && Command(s) == ""
  {
    UpToPlusAt(s, "");
  }

  /** The words that replies are made of. */
  lemma Readings()
    ensures Status("on") == "on" && Command("on") == "" && Status("gone") == "gone" && Status("off+rem") == "off"
  {
    Plain("on");
    Plain("gone");
    UpToPlusAt("off", "rem");
    assert "off" + "+" + "rem" == "off+rem";
  }

  /** A listed contact stays listed, and clients and record agree, through every run of everyday requests. */
  lemma {:induction false} EverydayRunsAgree(t: Topic, who: string, view: bool, requests: seq<Request>)
    requires Watching(t, who) && Consistent(view, Lookup(t, who)) && who in t.perSubs
    requires forall q <- requests :: t.peer(q.from) != Some(who) && (q.from == who ==> Everyday(q.what))
    ensures AlwaysConsistent(t, who, view, requests)
    decreases |requests|
  {
    Readings();
    if requests != [] {
      var q := requests[0];
      var r := ProcPresReq(t, q.from, q.what, q.wantReply);
      if r.Handled? {
        if q.from == who {
          assert Everyday(q.what);
          SafeExactly(t, who, q.what, q.wantReply, view);
          EverydayRunsAgree(r.topic, who, NextView(view, r.forward), requests[1..]);
        } else {
          OthersDoNotMatter(t, who, q);
          EverydayRunsAgree(r.topic, who, view, requests[1..]);
        }
      }
    }
  }

  /** After a removal a plain "on" is recorded but not shown: the agreement is lost. */
  lemma OnAfterRemovalDisagrees(t: Topic, who: string, view: bool)
    requires Watching(t, who) && Consistent(view, Lookup(t, who))
    ensures !AlwaysConsistent(t, who, view, [Request(who, "gone", false), Request(who, "on", false)])
  {
    Readings();
    var requests := [Request(who, "gone", false), Request(who, "on", false)];
    var r := ProcPresReq(t, who, "gone", false);
    assert Lookup(r.topic, who) == None;
    assert requests[1..][0] == Request(who, "on", false);
    var r' := ProcPresReq(r.topic, who, "on", false);
    assert Lookup(r'.topic, who) == Some(Contact(true, false));
    assert !AlwaysConsistent(r'.topic, who, NextView(NextView(view, r.forward), r'.forward), requests[1..][1..]);
    assert !AlwaysConsistent(r.topic, who, NextView(view, r.forward), requests[1..]);
  }

  // ----- messages between topics

  datatype Message = Message(from: string, to: string, what: string, wantReply: bool)

  datatype Network = Network(topics: map<string, Topic>, inFlight: seq<Message>)

  /** How many deliveries a message can cause, itself included. */
  function Weight(m: Message): nat {
    if m.wantReply && Status(m.what) == "?unkn" then 3
    else if m.wantReply && Status(m.what) == "on" then 2
    else 1
  }

  function TotalWeight(ms: seq<Message>): nat {
    if ms == [] then 0 else Weight(ms[0]) + TotalWeight(ms[1..])
  }

  /** Deliver the i-th message: the receiving topic may change and may send one reply. */
  function Deliver(n: Network, i: nat): Network
    requires i < |n.inFlight|
  {
    var m := n.inFlight[i];
    var rest := Rest(n.inFlight, i);
    if m.to !in n.topics then Network(n.topics, rest)
    else match ProcPresReq(n.topics[m.to], m.from, m.what, m.wantReply)
      case Panic => Network(n.topics, rest)
      case Handled(t, _, None) => Network(n.topics[m.to := t], rest)
      case Handled(t, _, Some(reply)) =>
        Network(n.topics[m.to := t], rest + [Message(t.name, m.from, reply.what, reply.wantReply)])
  }

  /** A schedule that delivers a message in flight at every turn. */
  predicate IsSchedule(n: Network, schedule: seq<nat>)
    decreases |schedule|
  {
    schedule != [] ==> schedule[0] < |n.inFlight| && IsSchedule(Deliver(n, schedule[0]), schedule[1..])
  }

  lemma {:induction false} WeightOfConcat(a: seq<Message>, b: seq<Message>)
    ensures TotalWeight(a + b) == TotalWeight(a) + TotalWeight(b)
  {
    if a == [] {
      assert a + b == b;
    } else {
      assert (a + b)[1..] == a[1..] + b;
      WeightOfConcat(a[1..], b);
    }
  }

  /** A reply weighs less than the message it answers. */
  lemma ReplyIsLighter(t: Topic, m: Message)
    ensures var r := ProcPresReq(t, m.from, m.what, m.wantReply);
      r.Handled? && r.reply.Some? ==> Weight(Message(t.name, m.from, r.reply.value.what, r.reply.value.wantReply)) < Weight(m)
  {
    Readings();
  }

  /** The messages without the i-th. */
  function Rest(ms: seq<Message>, i: nat): seq<Message>
    requires i < |ms|
  {
    ms[..i] + ms[i + 1..]
  }

  lemma RestOfTail(ms: seq<Message>, i: nat)
    requires 0 < i < |ms|
    ensures Rest(ms, i) != [] && Rest(ms, i)[0] == ms[0] && Rest(ms, i)[1..] == Rest(ms[1..], i - 1)
  {
    var left, right := Rest(ms, i)[1..], Rest(ms[1..], i - 1);
    assert |left| == |right|;
    forall j | 0 <= j < |left| ensures left[j] == right[j] { }
  }

  lemma {:induction false} WeightOfRest(ms: seq<Message>, i: nat)
    requires i < |ms|
    ensures TotalWeight(Rest(ms, i)) + Weight(ms[i]) == TotalWeight(ms)
  {
    if i == 0 {
      assert Rest(ms, 0) == ms[1..];
    } else {
      RestOfTail(ms, i);
      WeightOfRest(ms[1..], i - 1);
    }
  }

  lemma WeightOfOneMore(ms: seq<Message>, m: Message)
    ensures TotalWeight(ms + [m]) == TotalWeight(ms) + Weight(m)
  {
    WeightOfConcat(ms, [m]);
  }

  lemma DeliveryLowersWeight(n: Network, i: nat)
    requires i < |n.inFlight|
    ensures TotalWeight(Deliver(n, i).inFlight) < TotalWeight(n.inFlight)
  {
    var m := n.inFlight[i];
    WeightOfRest(n.inFlight, i);
    if m.to in n.topics {
      ReplyIsLighter(n.topics[m.to], m);
      var r := ProcPresReq(n.topics[m.to], m.from, m.what, m.wantReply);
      if r.Handled? && r.reply.Some? {
        KeepsName(n.topics[m.to], m.from, m.what, m.wantReply);
        WeightOfOneMore(Rest(n.inFlight, i), Message(r.topic.name, m.from, r.reply.value.what, r.reply.value.wantReply));
      }
    }
  }

  lemma KeepsName(t: Topic, from: string, what: string, wantReply: bool)
    ensures var r := ProcPresReq(t, from, what, wantReply); r.Handled? ==> r.topic.name == t.name
  {
  }

  lemma {:induction false} WeightBound(ms: seq<Message>)
    ensures TotalWeight(ms) <= 3 * |ms|
  {
    if ms != [] { WeightBound(ms[1..]); }
  }

  /**
   However messages are ordered and whatever the topics are, the exchange started by any messages ends
   after at most three deliveries per message.
   */
  lemma RepliesDieOut(n: Network, schedule: seq<nat>)
    requires IsSchedule(n, schedule)
    ensures |schedule| <= 3 * |n.inFlight|
  {
    ScheduleWithinWeight(n, schedule);
    WeightBound(n.inFlight);
  }

  lemma {:induction false} ScheduleWithinWeight(n: Network, schedule: seq<nat>)
    requires IsSchedule(n, schedule)
    ensures |schedule| <= TotalWeight(n.inFlight)
    decreases |schedule|
  {
    if schedule != [] {
      DeliveryLowersWeight(n, schedule[0]);
      ScheduleWithinWeight(Deliver(n, schedule[0]), schedule[1..]);
    }
  }
}
