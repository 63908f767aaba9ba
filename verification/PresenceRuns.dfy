/** What the record of a contact comes to after a run of requests, and which replies are owed. */
module PresenceRuns {
  import opened Options
  import opened Presence

  // ----- the parts of a request

  /** The status is what comes before the first "+", the command what comes between that and the next. */
  lemma SplitAtPlus(status: string, cmd: string, rest: string)
    requires '+' !in status && '+' !in cmd
    ensures Status(status) == status && Command(status) == ""
    ensures Status(status + "+" + cmd) == status && Command(status + "+" + cmd) == cmd
    ensures Status(status + "+" + cmd + "+" + rest) == status && Command(status + "+" + cmd + "+" + rest) == cmd
  {
    UpToPlusAt(status, cmd);
    Plain(status);
    Plain(cmd);
    var short, long := status + "+" + cmd, status + "+" + cmd + "+" + rest;
    assert short[|status| + 1..] == cmd;
    assert long == status + "+" + (cmd + "+" + rest) && long[|status| + 1..] == cmd + "+" + rest;
    UpToPlusAt(status, cmd + "+" + rest);
    UpToPlusAt(cmd, rest);
  }

  // ----- the record of a contact

  /** A request of the contact that is about its status. */
  predicate Counts(q: Request, who: string) {
    q.from == who && IsStatus(Status(q.what))
  }

  /** The request does not remove the contact and its command is one that exists. */
  predicate Stays(q: Request) {
    EffectiveCommand(q.what) == "" || EffectiveCommand(q.what) == "en" || EffectiveCommand(q.what) == "dis"
  }

  predicate Enables(q: Request, who: string) {
    Counts(q, who) && EffectiveCommand(q.what) == "en"
  }

  predicate Disables(q: Request, who: string) {
    Counts(q, who) && EffectiveCommand(q.what) == "dis"
  }

  /** The latest request to enable or disable the contact, if there was any, enabled it. */
  ghost predicate IsEnabled(c: Contact, who: string, requests: seq<Request>) {
    || (c.enabled && forall j | 0 <= j < |requests| :: !Disables(requests[j], who))
    || exists k | 0 <= k < |requests| :: Enables(requests[k], who) && forall j | k < j < |requests| :: !Disables(requests[j], who)
  }

  /** The contact is enabled after each of the requests from k on, and none of those after k says that it went off. */
  ghost predicate UpSince(c: Contact, who: string, requests: seq<Request>, k: nat) {
    && (forall j | k <= j <= |requests| :: IsEnabled(c, who, requests[..j]))
    && (forall j | k <= j < |requests| :: Counts(requests[j], who) ==> Status(requests[j].what) != "off")
  }

  /** The latest report that was not lost on a disabled contact said that it is on. */
  ghost predicate IsOnline(c: Contact, who: string, requests: seq<Request>) {
    || (c.online && UpSince(c, who, requests, 0))
    || exists k | 0 < k <= |requests| ::
         Counts(requests[k - 1], who) && Status(requests[k - 1].what) == "on" && UpSince(c, who, requests, k)
  }

  /** The topic after the requests; a panic ends the run. */
  function Process(t: Topic, requests: seq<Request>): Option<Topic> {
    if requests == [] then Some(t)
    else
      var before, q := Process(t, requests[..|requests| - 1]), requests[|requests| - 1];
      if before.None? then None
      else
        var r := ProcPresReq(before.value, q.from, q.what, q.wantReply);
        if r.Panic? then None else Some(r.topic)
  }

  lemma EnabledNext(c: Contact, who: string, requests: seq<Request>, q: Request, more: seq<Request>)
    requires more == requests + [q]
    ensures IsEnabled(c, who, more) <==> Enables(q, who) || (IsEnabled(c, who, requests) && !Disables(q, who))
  {
    if Enables(q, who) {
      assert Enables(more[|requests|], who);
    }
    if IsEnabled(c, who, requests) && !Disables(q, who) && !(c.enabled && forall j | 0 <= j < |requests| :: !Disables(requests[j], who)) {
      var k :| 0 <= k < |requests| && Enables(requests[k], who) && forall j | k < j < |requests| :: !Disables(requests[j], who);
      assert Enables(more[k], who);
    }
    if IsEnabled(c, who, more) && !Enables(q, who) {
      assert !Disables(more[|requests|], who) by {
        if c.enabled && forall j | 0 <= j < |more| :: !Disables(more[j], who) {
        } else {
          var k :| 0 <= k < |more| && Enables(more[k], who) && forall j | k < j < |more| :: !Disables(more[j], who);
          assert k < |requests|;
        }
      }
      EnabledBefore(c, who, requests, q, more);
    }
  }

  lemma EnabledBefore(c: Contact, who: string, requests: seq<Request>, q: Request, more: seq<Request>)
    requires more == requests + [q] && IsEnabled(c, who, more) && !Enables(q, who)
    ensures IsEnabled(c, who, requests)
  {
    if c.enabled && forall j | 0 <= j < |more| :: !Disables(more[j], who) {
      assert forall j | 0 <= j < |requests| :: requests[j] == more[j];
    } else {
      var k :| 0 <= k < |more| && Enables(more[k], who) && forall j | k < j < |more| :: !Disables(more[j], who);
      assert k < |requests| && Enables(requests[k], who);
      assert forall j | k < j < |requests| :: requests[j] == more[j];
    }
  }

  lemma UpSinceNext(c: Contact, who: string, requests: seq<Request>, q: Request, more: seq<Request>, k: nat)
    requires more == requests + [q] && k <= |requests|
    ensures UpSince(c, who, more, k) <==>
      UpSince(c, who, requests, k) && IsEnabled(c, who, more) && !(Counts(q, who) && Status(q.what) == "off")
  {
    assert more[..|more|] == more && more[|requests|] == q;
    assert forall j | 0 <= j <= |requests| :: more[..j] == requests[..j];
    assert forall j | 0 <= j < |requests| :: more[j] == requests[j];
  }

  lemma OnlineNext(c: Contact, who: string, requests: seq<Request>, q: Request, more: seq<Request>)
    requires more == requests + [q]
    ensures IsOnline(c, who, more) <==>
      && IsEnabled(c, who, more)
      && if Counts(q, who) && Status(q.what) == "on" then true
         else IsOnline(c, who, requests) && !(Counts(q, who) && Status(q.what) == "off")
  {
    forall k: nat | k <= |requests|
      ensures UpSince(c, who, more, k) <==>
        UpSince(c, who, requests, k) && IsEnabled(c, who, more) && !(Counts(q, who) && Status(q.what) == "off")
    {
      UpSinceNext(c, who, requests, q, more, k);
    }
    assert more[..|more|] == more && more[|requests|] == q;
    assert UpSince(c, who, more, |more|) <==> IsEnabled(c, who, more);
    assert forall j | 0 <= j < |requests| :: more[j] == requests[j];
    if IsOnline(c, who, requests) && !(c.online && UpSince(c, who, requests, 0)) {
      var k :| 0 < k <= |requests| && Counts(requests[k - 1], who) && Status(requests[k - 1].what) == "on" && UpSince(c, who, requests, k);
      assert Counts(more[k - 1], who) && Status(more[k - 1].what) == "on";
    }
    if Counts(q, who) && Status(q.what) == "on" {
      assert Counts(more[|more| - 1], who) && Status(more[|more| - 1].what) == "on";
    }
  }

  /** The record of the contact that a run of requests leads to. */
  ghost predicate Records(t: Topic, who: string, enabled: bool, online: bool) {
    && who in t.perSubs && t.perSubs[who].enabled == enabled && t.perSubs[who].online == online && (online ==> enabled)
  }

  /** One request of a listed contact, by what it says. */
  lemma RecordStep(t: Topic, who: string, q: Request, enabled: bool, online: bool)
    requires Watching(t, who) && Records(t, who, enabled, online) && q.from == who && Stays(q)
    ensures var r := ProcPresReq(t, q.from, q.what, q.wantReply);
      var enabled' := Enables(q, who) || (enabled && !Disables(q, who));
      && r.Handled? && Watching(r.topic, who) && r.topic.peer == t.peer
      && Records(r.topic, who, enabled', enabled' &&
           if Counts(q, who) && Status(q.what) == "on" then true else online && !(Counts(q, who) && Status(q.what) == "off"))
  {
  }

  lemma NotCounted(c: Contact, who: string, requests: seq<Request>, q: Request)
    requires q.from != who
    ensures IsEnabled(c, who, requests + [q]) <==> IsEnabled(c, who, requests)
    ensures (IsOnline(c, who, requests) ==> IsEnabled(c, who, requests)) ==> (IsOnline(c, who, requests + [q]) <==> IsOnline(c, who, requests))
  {
    EnabledNext(c, who, requests, q, requests + [q]);
    OnlineNext(c, who, requests, q, requests + [q]);
  }

  /**
   In every run of requests from anybody in which a listed contact is not removed, it is enabled exactly if the latest
   command about that enabled it, and online exactly if its latest report that was not lost on a disabled contact, or
   made void by disabling it since, was "on". Nobody else's requests have any influence.
   */
  lemma {:induction false} RecordIsLatestReport(t: Topic, who: string, requests: seq<Request>)
    requires Watching(t, who) && who in t.perSubs && (t.perSubs[who].online ==> t.perSubs[who].enabled)
    requires forall q <- requests :: t.peer(q.from) != Some(who) && (q.from == who ==> Stays(q))
    requires Process(t, requests).Some?
    ensures var t', c := Process(t, requests).value, t.perSubs[who];
      && Watching(t', who) && t'.peer == t.peer
      && who in t'.perSubs && t'.perSubs[who] == Contact(IsOnline(c, who, requests), IsEnabled(c, who, requests))
      && (t'.perSubs[who].online ==> t'.perSubs[who].enabled)
  {
    var c := t.perSubs[who];
    if requests == [] {
      assert requests[..0] == requests;
      assert IsEnabled(c, who, requests) == c.enabled;
      assert UpSince(c, who, requests, 0) == c.enabled;
    } else {
      var k := |requests| - 1;
      var init, q := requests[..k], requests[k];
      assert requests == init + [q] && q in requests;
      RecordIsLatestReport(t, who, init);
      var t1 := Process(t, init).value;
      if q.from == who {
        RecordStep(t1, who, q, IsEnabled(c, who, init), IsOnline(c, who, init));
        EnabledNext(c, who, init, q, requests);
        OnlineNext(c, who, init, q, requests);
      } else {
        OthersDoNotMatter(t1, who, q);
        NotCounted(c, who, init, q);
      }
    }
  }

  /** A request about a status lists its sender, unless it asks for removal; then the sender is not listed. */
  lemma ListedExactly(t: Topic, who: string, what: string, wantReply: bool)
    requires Watching(t, who) && IsStatus(Status(what)) && !ProcPresReq(t, who, what, wantReply).Panic?
    ensures var t' := ProcPresReq(t, who, what, wantReply).topic;
      && (who in t'.perSubs <==> EffectiveCommand(what) != "rem")
      && (who !in t.perSubs && who in t'.perSubs ==> t'.perSubs[who] == Contact(Status(what) == "on", EffectiveCommand(what) == "en"))
  {
  }

  // ----- replies

  /** A topic answers a message exactly if it asks for a reply and says "on" or "?unkn"; only "?unkn" is answered by a message that asks back. */
  lemma AnswersExactly(n: Network, i: nat)
    requires i < |n.inFlight| && n.inFlight[i].to in n.topics
    requires var m := n.inFlight[i]; !ProcPresReq(n.topics[m.to], m.from, m.what, m.wantReply).Panic?
    ensures var m := n.inFlight[i];
      var t, rest := n.topics[m.to], Rest(n.inFlight, i);
      var leaves := t.isMe && m.from in t.perSubs && EffectiveCommand(m.what) == "rem";
      Deliver(n, i).inFlight ==
        if !t.inactive && !t.isProxy && m.wantReply && (Status(m.what) == "on" || Status(m.what) == "?unkn")
        then rest + [Message(t.name, m.from, if leaves then "off+rem" else "on", Status(m.what) == "?unkn")]
        else rest
  {
    var m := n.inFlight[i];
    KeepsName(n.topics[m.to], m.from, m.what, m.wantReply);
  }

  /** Two users' topics that list and enable each other. */
  ghost predicate Acquainted(a: Topic, b: Topic) {
    && Watching(a, b.name) && Watching(b, a.name)
    && b.name in a.perSubs && a.perSubs[b.name].enabled && a.name in b.perSubs && b.perSubs[a.name].enabled
  }

  lemma Words()
    ensures Status("?unkn") == "?unkn" && EffectiveCommand("?unkn") == "" && Status("on") == "on" && EffectiveCommand("on") == ""
  {
    Plain("?unkn");
    Plain("on");
  }

  lemma OneMessage(n: Network, m: Message)
    requires n.inFlight == [m] && m.to in n.topics && !ProcPresReq(n.topics[m.to], m.from, m.what, m.wantReply).Panic?
    ensures var r := ProcPresReq(n.topics[m.to], m.from, m.what, m.wantReply);
      Deliver(n, 0) == Network(n.topics[m.to := r.topic],
        if r.reply.Some? then [Message(r.topic.name, m.from, r.reply.value.what, r.reply.value.wantReply)] else [])
  {
    assert Rest(n.inFlight, 0) == [];
  }

  /** What a topic does with the plain words of an exchange. */
  lemma Hears(t: Topic, who: string, what: string, wantReply: bool)
    requires Watching(t, who) && who in t.perSubs && t.perSubs[who].enabled && (what == "?unkn" || what == "on")
    ensures ProcPresReq(t, who, what, wantReply).Handled?
    ensures var r := ProcPresReq(t, who, what, wantReply);
      && r.topic == t.(perSubs := t.perSubs[who := Contact(what == "on" || t.perSubs[who].online, true)])
      && r.reply == (if wantReply then Some(Reply("on", what == "?unkn")) else None)
      && (what == "on" && !t.perSubs[who].online ==> r.forward == "on")
  {
    Words();
  }

  /** The topic t answers the one message in flight. */
  lemma Turn(n: Network, t: Topic, who: string, what: string, wantReply: bool, n': Network)
    requires n.inFlight == [Message(who, t.name, what, wantReply)] && t.name in n.topics && n.topics[t.name] == t
    requires Watching(t, who) && who in t.perSubs && t.perSubs[who].enabled && (what == "?unkn" || what == "on")
    requires n' == Deliver(n, 0)
    ensures n'.topics == n.topics[t.name := t.(perSubs := t.perSubs[who := Contact(what == "on" || t.perSubs[who].online, true)])]
    ensures n'.inFlight == if wantReply then [Message(t.name, who, "on", what == "?unkn")] else []
  {
    Hears(t, who, what, wantReply);
    OneMessage(n, Message(who, t.name, what, wantReply));
  }

  /**
   The exchange that "?unkn" starts completes: the three deliveries it may take are taken, nothing is left in flight, and
   each of the two topics has the other on record as online.
   */
  lemma ExchangeCompletes(n: Network, a: Topic, b: Topic) returns (n1: Network, n2: Network, n3: Network)
    requires a.name != b.name && Acquainted(a, b) && n.inFlight == [Message(a.name, b.name, "?unkn", true)]
    requires a.name in n.topics && n.topics[a.name] == a && b.name in n.topics && n.topics[b.name] == b
    ensures n1 == Deliver(n, 0) && |n1.inFlight| == 1 && n2 == Deliver(n1, 0) && |n2.inFlight| == 1 && n3 == Deliver(n2, 0)
    ensures n3.topics == n.topics[a.name := a.(perSubs := a.perSubs[b.name := Contact(true, true)])]
                                 [b.name := b.(perSubs := b.perSubs[a.name := Contact(true, true)])]
    ensures n3.inFlight == []
  {
    n1 := Deliver(n, 0);
    Turn(n, b, a.name, "?unkn", true, n1);
    var b1 := n1.topics[b.name];
    n2, n3 := SecondHalf(n1, a, b, b1);
    Overwritten(n.topics, b.name, b1, a.name, n3.topics[a.name], n3.topics[b.name]);
  }

  lemma Overwritten<K, V>(m: map<K, V>, k: K, first: V, other: K, v: V, last: V)
    ensures m[k := first][other := v][k := last] == m[other := v][k := last]
  {
  }

  lemma SecondHalf(n: Network, a: Topic, b: Topic, b1: Topic) returns (n2: Network, n3: Network)
    requires a.name != b.name && Acquainted(a, b) && n.inFlight == [Message(b.name, a.name, "on", true)]
    requires a.name in n.topics && n.topics[a.name] == a && b.name in n.topics && n.topics[b.name] == b1
    requires b1 == b.(perSubs := b.perSubs[a.name := Contact(b.perSubs[a.name].online, true)])
    ensures n2 == Deliver(n, 0) && |n2.inFlight| == 1 && n3 == Deliver(n2, 0) && n3.inFlight == []
    ensures n3.topics == n.topics[a.name := a.(perSubs := a.perSubs[b.name := Contact(true, true)])]
                                 [b.name := b.(perSubs := b.perSubs[a.name := Contact(true, true)])]
  {
    n2 := Deliver(n, 0);
    Turn(n, a, b.name, "on", true, n2);
    n3 := Deliver(n2, 0);
    Turn(n2, b1, a.name, "on", false, n3);
    assert b1.perSubs[a.name := Contact(true, true)] == b.perSubs[a.name := Contact(true, true)];
  }
}
