/** What the statements on invitations come to over a run, and what they can never change. */
module InviteRuns {
  import opened Options
  import opened Invites

  // ----- who invited whom

  /** Every registration carries the inviter and the code of the invite it names. */
  ghost predicate Traced(d: Tables) {
    forall user | user in d.registrations ::
      var r := d.registrations[user];
      r.inviteId in d.invites && r.inviter == d.invites[r.inviteId].inviter && r.code == d.invites[r.inviteId].code
  }

  /** The columns that identify an invite are never written again, and its count never falls. */
  lemma StepKeepsColumns(s: System, a: Action, id: Key)
    requires Invariant(s) && id in s.tables.invites
    ensures var e := Step(s, a).tables;
      && id in e.invites && e.invites[id].code == s.tables.invites[id].code && e.invites[id].inviter == s.tables.invites[id].inviter
      && e.invites[id].useCount >= s.tables.invites[id].useCount
  {
  }

  lemma {:induction false} ColumnsLast(s: System, actions: seq<Action>, id: Key)
    requires Invariant(s) && id in s.tables.invites
    ensures var e := Run(s, actions).tables;
      && id in e.invites && e.invites[id].code == s.tables.invites[id].code && e.invites[id].inviter == s.tables.invites[id].inviter
      && e.invites[id].useCount >= s.tables.invites[id].useCount
  {
    if actions != [] {
      var init := actions[..|actions| - 1];
      ColumnsLast(s, init, id);
      RunKeeps(s, init);
      StepKeepsColumns(Run(s, init), actions[|actions| - 1], id);
    }
  }

  lemma StepKeepsTraced(s: System, a: Action)
    requires Invariant(s) && Traced(s.tables)
    ensures Traced(Step(s, a).tables)
  {
    var e := Step(s, a).tables;
    forall user | user in e.registrations ensures
      var r := e.registrations[user];
      r.inviteId in e.invites && r.inviter == e.invites[r.inviteId].inviter && r.code == e.invites[r.inviteId].code
    {
      if user in s.tables.registrations {
        StepIsPermanent(s, a);
        StepKeepsColumns(s, a, s.tables.registrations[user].inviteId);
      }
    }
  }

  /** In every run a registration names an invite that exists and carries its inviter and its code. */
  lemma {:induction false} RegistrationsAreTraced(actions: seq<Action>)
    ensures Traced(Run(EMPTY, actions).tables)
  {
    if actions != [] {
      var init := actions[..|actions| - 1];
      RegistrationsAreTraced(init);
      RunKeeps(EMPTY, init);
      StepKeepsTraced(Run(EMPTY, init), actions[|actions| - 1]);
    }
  }

  // ----- creating, updating, revoking

  /** A new invite: at least one use, none of them used, and an end after the given number of days, if there is one. */
  ghost predicate IsFresh(row: Invite, code: Key, inviter: Key, request: CreateRequest, now: int) {
    && row.code == code && row.inviter == inviter && row.status == Active && row.useCount == 0
    && row.maxUses == (if request.maxUses < 1 then 1 else request.maxUses)
    && (request.expiresInDays == 0 ==> row.expiresAt == None)
    && (request.expiresInDays != 0 ==> row.expiresAt == Some(now + request.expiresInDays * 86_400_000_000_000))
  }

  /** A creation adds one fresh invite if and only if request, id and code are acceptable. */
  lemma CreatesExactly(s: System, id: Key, code: Key, inviter: Key, request: CreateRequest, now: int)
    ensures var s' := Step(s, Create(id, code, inviter, request, now));
      if request.maxUses <= 20 && 0 <= request.expiresInDays <= 90 && id !in s.tables.invites && !CodeTaken(s.tables.invites, code) then
        && id in s'.tables.invites && IsFresh(s'.tables.invites[id], code, inviter, request, now)
        && s' == s.(tables := s.tables.(invites := s.tables.invites[id := s'.tables.invites[id]]))
      else s' == s
  {
    assert s == System(s.tables, s.pending, s.open);
  }

  /** The row with the parts that the request asks for. */
  function Overlaid(row: Invite, request: UpdateRequest): Invite {
    row.(status := match request.status case Some(status) => status case None => row.status,
         maxUses := match request.maxUses case Some(uses) => uses case None => row.maxUses,
         expiresAt := if request.expiry.Keep? || request.expiry.Malformed? then row.expiresAt
                      else if request.expiry.Clear? then None else Some(request.expiry.at))
  }

  /**
   An update begins if and only if the request is good and the invite is the user's. Whatever happens between its halves,
   the second one overwrites status, limit and expiry with the row as it was read and the request laid over it, and
   leaves the other columns and all other rows as they are by then.
   */
  lemma UpdatesExactly(s: System, u: nat, inviter: Key, id: Key, request: UpdateRequest, between: seq<Action>)
    requires Invariant(s) && id in s.tables.invites && u !in s.pending && WriteUpdate(u) !in between
    ensures var read := Step(s, ReadForUpdate(u, inviter, id, request));
      var good := (request.maxUses.Some? ==> 1 <= request.maxUses.value <= 20) && !request.expiry.Malformed?;
      if !good || inviter != s.tables.invites[id].inviter then read == s
      else
        && read.tables == s.tables
        && var later, row := Run(read, between), Overlaid(s.tables.invites[id], request);
           !Locked(later, id) ==>
             && id in later.tables.invites
             && Step(later, WriteUpdate(u)).tables == later.tables.(invites := later.tables.invites[id :=
                  later.tables.invites[id].(status := row.status, maxUses := row.maxUses, expiresAt := row.expiresAt)])
  {
    var read := Step(s, ReadForUpdate(u, inviter, id, request));
    if u in read.pending {
      StepKeeps(s, ReadForUpdate(u, inviter, id, request));
      StaysPlanned(read, between, u);
      RunKeeps(read, between);
    }
  }

  lemma {:induction false} StaysPlanned(s: System, between: seq<Action>, u: nat)
    requires u in s.pending && WriteUpdate(u) !in between
    ensures var e := Run(s, between); u in e.pending && e.pending[u] == s.pending[u]
  {
    if between != [] {
      StaysPlanned(s, between[..|between| - 1], u);
      assert between[|between| - 1] in between;
    }
  }

  /** A revocation of a free row by its owner makes it revoked, whatever it was, and one by anybody else does nothing. */
  lemma RevokesExactly(s: System, inviter: Key, id: Key)
    requires id in s.tables.invites && !Locked(s, id)
    ensures var row := s.tables.invites[id];
      Step(s, Revoke(inviter, id)) ==
        if inviter == row.inviter then s.(tables := s.tables.(invites := s.tables.invites[id := row.(status := Revoked)])) else s
  {
  }
}
