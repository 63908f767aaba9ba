/**
 Invitations: created and revoked in one statement, updated in two unlocked statements, consumed in
 a transaction that holds the row of the invite.
 */
module Invites {
  import opened Options

  const MOST_USES := 20

  /** Identifiers of users and invites and invite codes, which are only ever compared. */
  type Key = int

  datatype Status = Active | Revoked | Expired

  datatype Invite = Invite(code: Key, inviter: Key, status: Status, maxUses: int, useCount: int,
                           expiresAt: Option<int>)

  datatype Registration = Registration(inviter: Key, inviteId: Key, code: Key)

  datatype Signal = Signal(user: Key, inviteId: Key, reason: string)

  datatype Tables = Tables(invites: map<Key, Invite>, registrations: map<Key, Registration>,
                           signals: seq<Signal>)

  // ----- creating

  datatype CreateRequest = CreateRequest(maxUses: int, expiresInDays: int)

  const DAY := 24 * 60 * 60 * 1_000_000_000

  function ClampedUses(request: CreateRequest): int {
    if request.maxUses <= 0 then 1 else request.maxUses
  }

  predicate Acceptable(request: CreateRequest) {
    ClampedUses(request) <= MOST_USES && 0 <= request.expiresInDays <= 90
  }

  predicate CodeTaken(invites: map<Key, Invite>, code: Key) {
    exists id | id in invites :: invites[id].code == code
  }

  function NewInvite(code: Key, inviter: Key, request: CreateRequest, now: int): Invite {
    Invite(code, inviter, Active, ClampedUses(request), 0,
           if request.expiresInDays > 0 then Some(now + request.expiresInDays * DAY) else None)
  }

  function Created(d: Tables, id: Key, code: Key, inviter: Key, request: CreateRequest, now: int): Tables {
    if !Acceptable(request) || id in d.invites || CodeTaken(d.invites, code) then d
    else d.(invites := d.invites[id := NewInvite(code, inviter, request, now)])
  }

  // ----- updating

  datatype Expiry = Keep | Clear | Until(at: int) | Malformed

  datatype UpdateRequest = UpdateRequest(status: Option<Status>, maxUses: Option<int>, expiry: Expiry)

  /** What an update will write once its statement runs: every column, also those not asked for. */
  datatype Write = Write(inviter: Key, id: Key, status: Status, maxUses: int, expiresAt: Option<int>)

  predicate Owns(d: Tables, inviter: Key, id: Key) {
    id in d.invites && d.invites[id].inviter == inviter
  }

  function Planned(d: Tables, inviter: Key, id: Key, request: UpdateRequest): (w: Option<Write>)
    ensures w.Some? ==> Owns(d, inviter, id) && w.value.id == id && w.value.inviter == inviter
  {
    if (request.maxUses.Some? && !(1 <= request.maxUses.value <= MOST_USES)) || !Owns(d, inviter, id) || request.expiry.Malformed?
    then None
    else
      var row := d.invites[id];
      Some(Write(inviter, id,
                 if request.status.Some? then request.status.value else row.status,
                 if request.maxUses.Some? then request.maxUses.value else row.maxUses,
                 match request.expiry case Clear => None case Until(at) => Some(at) case _ => row.expiresAt))
  }

  function Written(d: Tables, w: Write): Tables {
    if !Owns(d, w.inviter, w.id) then d
    else d.(invites := d.invites[w.id :=
              d.invites[w.id].(status := w.status, maxUses := w.maxUses, expiresAt := w.expiresAt)])
  }

  function RevokedIn(d: Tables, inviter: Key, id: Key): Tables {
    if !Owns(d, inviter, id) then d
    else d.(invites := d.invites[id := d.invites[id].(status := Revoked)])
  }

  // ----- looking at an invite

  datatype Preview = Preview(status: Status, remaining: int, valid: bool)

  function PreviewOf(row: Invite, now: int): Preview {
    var remaining := if row.maxUses - row.useCount < 0 then 0 else row.maxUses - row.useCount;
    var valid := row.status == Active && remaining > 0 && (row.expiresAt.None? || row.expiresAt.value > now);
    if row.expiresAt.Some? && row.expiresAt.value < now && row.status == Active then Preview(Expired, remaining, false)
    else Preview(row.status, remaining, valid)
  }

  // ----- consuming

  datatype Refusal = NotFound | Inactive | PastExpiry | Exhausted | SelfInvite | DatabaseError

  /** A statement of the transaction that the database may refuse. */
  datatype Statement = InsertRegistration | InsertSignal(index: nat) | UpdateInvite | Commit

  function Check(row: Invite, user: Key, now: int): Option<Refusal> {
    if row.status != Active then Some(Inactive)
    else if row.expiresAt.Some? && row.expiresAt.value < now then Some(PastExpiry)
    else if row.useCount >= row.maxUses then Some(Exhausted)
    else if row.inviter == user then Some(SelfInvite)
    else None
  }

  predicate Fails(registrations: map<Key, Registration>, user: Key, reasons: seq<string>, faults: set<Statement>) {
    || user in registrations
    || InsertRegistration in faults || UpdateInvite in faults || Commit in faults
    || exists i :: 0 <= i < |reasons| && InsertSignal(i) in faults
  }

  function Verdict(d: Tables, row: Invite, user: Key, now: int, reasons: seq<string>, faults: set<Statement>): Option<Refusal> {
    var refusal := Check(row, user, now);
    if refusal.Some? then refusal
    else if Fails(d.registrations, user, reasons, faults) then Some(DatabaseError)
    else None
  }

  function Signals(user: Key, id: Key, reasons: seq<string>): seq<Signal> {
    seq(|reasons|, i requires 0 <= i < |reasons| => Signal(user, id, reasons[i]))
  }

  /** The row as the transaction writes it, from the values it read. */
  function Used(row: Invite): Invite {
    row.(useCount := row.useCount + 1, status := if row.useCount + 1 >= row.maxUses then Expired else row.status)
  }

  /** The tables after a commit; the row of the invite is overwritten with values computed from `row`. */
  function Committed(d: Tables, id: Key, row: Invite, user: Key, reasons: seq<string>): Tables
    requires id in d.invites
  {
    Tables(d.invites[id := d.invites[id].(useCount := Used(row).useCount, status := Used(row).status)],
           d.registrations[user := Registration(row.inviter, id, row.code)],
           d.signals + Signals(user, id, reasons))
  }

  // ----- runs

  datatype Transaction = Transaction(id: Key, row: Invite)

  /** The tables, the updates that have read but not yet written, and the transactions that hold a row. */
  datatype System = System(tables: Tables, pending: map<nat, Write>, open: map<nat, Transaction>)

  datatype Action =
    | Create(id: Key, code: Key, inviter: Key, create: CreateRequest, now: int)
    | ReadForUpdate(update: nat, inviter: Key, id: Key, request: UpdateRequest)
    | WriteUpdate(update: nat)
    | Revoke(inviter: Key, id: Key)
    | Begin(transaction: nat, id: Key, code: Key)
    | Finish(transaction: nat, user: Key, now: int, reasons: seq<string>, faults: set<Statement>)

  predicate Locked(s: System, id: Key) {
    exists t | t in s.open :: s.open[t].id == id
  }

  /** A statement on a row waits while a transaction holds the row. */
  predicate Enabled(s: System, a: Action) {
    match a
    case Create(_, _, _, _, _) => true
    case ReadForUpdate(u, inviter, id, request) => u !in s.pending && Planned(s.tables, inviter, id, request).Some?
    case WriteUpdate(u) => u in s.pending && !Locked(s, s.pending[u].id)
    case Revoke(_, id) => !Locked(s, id)
    case Begin(t, id, code) =>
      t !in s.open && id in s.tables.invites && s.tables.invites[id].code == code && !Locked(s, id)
    case Finish(t, _, _, _, _) => t in s.open && s.open[t].id in s.tables.invites
  }

  function Outcome(s: System, a: Action): Option<Refusal>
    requires a.Finish? && Enabled(s, a)
  {
    Verdict(s.tables, s.open[a.transaction].row, a.user, a.now, a.reasons, a.faults)
  }

  function Ended(s: System, a: Action): System
    requires a.Finish? && Enabled(s, a)
  {
    var tx := s.open[a.transaction];
    System(if Outcome(s, a).Some? then s.tables else Committed(s.tables, tx.id, tx.row, a.user, a.reasons),
           s.pending, s.open - {a.transaction})
  }

  function Step(s: System, a: Action): System {
    if !Enabled(s, a) then s
    else
      match a
      case Create(id, code, inviter, request, now) => s.(tables := Created(s.tables, id, code, inviter, request, now))
      case ReadForUpdate(u, inviter, id, request) =>
        s.(pending := s.pending[u := Planned(s.tables, inviter, id, request).value])
      case WriteUpdate(u) => s.(tables := Written(s.tables, s.pending[u]), pending := s.pending - {u})
      case Revoke(inviter, id) => s.(tables := RevokedIn(s.tables, inviter, id))
      case Begin(t, id, _) => s.(open := s.open[t := Transaction(id, s.tables.invites[id])])
      case Finish(_, _, _, _, _) => Ended(s, a)
  }

  function Run(s: System, actions: seq<Action>): System {
    if actions == [] then s else Step(Run(s, actions[..|actions| - 1]), actions[|actions| - 1])
  }

  const EMPTY := System(Tables(map[], map[], []), map[], map[])

  // ----- the invariant

  /** Who registered with an invite. */
  function Guests(d: Tables, id: Key): set<Key> {
    set user | user in d.registrations && d.registrations[user].inviteId == id
  }

  ghost predicate Counted(d: Tables) {
    && (forall id | id in d.invites :: d.invites[id].useCount == |Guests(d, id)|)
    && (forall user | user in d.registrations :: d.registrations[user].inviteId in d.invites)
  }

  ghost predicate Bounded(d: Tables) {
    forall id | id in d.invites :: 1 <= d.invites[id].maxUses <= MOST_USES && d.invites[id].useCount <= MOST_USES
  }

  ghost predicate CodesDiffer(d: Tables) {
    forall i, j | i in d.invites && j in d.invites && i != j :: d.invites[i].code != d.invites[j].code
  }

  ghost predicate PendingAreGood(s: System) {
    forall u | u in s.pending ::
      Owns(s.tables, s.pending[u].inviter, s.pending[u].id) && 1 <= s.pending[u].maxUses <= MOST_USES
  }

  /** What an open transaction has read is still what the row holds, and no other transaction holds it. */
  ghost predicate Isolated(s: System) {
    && (forall t | t in s.open :: s.open[t].id in s.tables.invites && s.tables.invites[s.open[t].id] == s.open[t].row)
    && (forall t, u | t in s.open && u in s.open && t != u :: s.open[t].id != s.open[u].id)
  }

  ghost predicate Invariant(s: System) {
    Counted(s.tables) && Bounded(s.tables) && CodesDiffer(s.tables) && PendingAreGood(s) && Isolated(s)
  }

  /** The same registrations count the same. */
  lemma SameGuests(d: Tables, e: Tables)
    requires d.registrations == e.registrations
    ensures forall id :: Guests(d, id) == Guests(e, id)
  {
    forall id ensures Guests(d, id) == Guests(e, id) {
      assert forall user :: user in Guests(d, id) <==> user in Guests(e, id);
    }
  }

  lemma NoGuests(d: Tables, id: Key)
    requires Counted(d) && id !in d.invites
    ensures Guests(d, id) == {}
  {
    assert forall user | user in d.registrations :: d.registrations[user].inviteId in d.invites;
  }

  lemma CreateKeeps(s: System, id: Key, code: Key, inviter: Key, request: CreateRequest, now: int)
    requires Invariant(s)
    ensures Invariant(s.(tables := Created(s.tables, id, code, inviter, request, now)))
  {
    var d := Created(s.tables, id, code, inviter, request, now);
    SameGuests(s.tables, d);
    if id !in s.tables.invites {
      NoGuests(s.tables, id);
    }
  }

  /** An update of a row that nobody holds, leaving its counter, owner and code alone. */
  lemma RowUpdateKeeps(s: System, id: Key, row: Invite, pending: map<nat, Write>)
    requires Invariant(s) && id in s.tables.invites && !Locked(s, id)
    requires 1 <= row.maxUses <= MOST_USES && row.useCount == s.tables.invites[id].useCount
    requires row.inviter == s.tables.invites[id].inviter && row.code == s.tables.invites[id].code
    requires forall u | u in pending :: u in s.pending && pending[u] == s.pending[u]
    ensures Invariant(System(s.tables.(invites := s.tables.invites[id := row]), pending, s.open))
  {
    SameGuests(s.tables, s.tables.(invites := s.tables.invites[id := row]));
  }

  lemma NewGuest(d: Tables, id: Key, row: Invite, user: Key, reasons: seq<string>, other: Key)
    requires id in d.invites && user !in d.registrations
    ensures Guests(Committed(d, id, row, user, reasons), other) == Guests(d, other) + if other == id then {user} else {}
    ensures user !in Guests(d, other)
  {
  }

  lemma CommitKeepsCounts(d: Tables, id: Key, row: Invite, user: Key, reasons: seq<string>)
    requires Counted(d) && id in d.invites && d.invites[id] == row && user !in d.registrations
    ensures Counted(Committed(d, id, row, user, reasons))
  {
    var e := Committed(d, id, row, user, reasons);
    forall other | other in e.invites ensures e.invites[other].useCount == |Guests(e, other)| {
      NewGuest(d, id, row, user, reasons, other);
    }
  }

  lemma CommitKeepsTables(d: Tables, id: Key, row: Invite, user: Key, reasons: seq<string>)
    requires Counted(d) && Bounded(d) && CodesDiffer(d)
    requires id in d.invites && d.invites[id] == row && user !in d.registrations && row.useCount < row.maxUses
    ensures var e := Committed(d, id, row, user, reasons); Counted(e) && Bounded(e) && CodesDiffer(e)
  {
    CommitKeepsCounts(d, id, row, user, reasons);
  }

  lemma FinishKeeps(s: System, a: Action)
    requires Invariant(s) && a.Finish? && Enabled(s, a)
    ensures Invariant(Ended(s, a))
  {
    var tx := s.open[a.transaction];
    if Outcome(s, a).None? {
      CommitKeepsTables(s.tables, tx.id, tx.row, a.user, a.reasons);
    }
  }

  lemma StepKeeps(s: System, a: Action)
    requires Invariant(s)
    ensures Invariant(Step(s, a))
  {
    if Enabled(s, a) {
      match a
      case Create(id, code, inviter, request, now) => CreateKeeps(s, id, code, inviter, request, now);
      case WriteUpdate(u) =>
        var w := s.pending[u];
        RowUpdateKeeps(s, w.id, Written(s.tables, w).invites[w.id], s.pending - {u});
      case Revoke(inviter, id) =>
        if Owns(s.tables, inviter, id) {
          RowUpdateKeeps(s, id, RevokedIn(s.tables, inviter, id).invites[id], s.pending);
        }
      case Finish(_, _, _, _, _) => FinishKeeps(s, a);
      case _ =>
    }
  }

  lemma {:induction false} RunKeeps(s: System, actions: seq<Action>)
    requires Invariant(s)
    ensures Invariant(Run(s, actions))
  {
    if actions != [] {
      RunKeeps(s, actions[..|actions| - 1]);
      StepKeeps(Run(s, actions[..|actions| - 1]), actions[|actions| - 1]);
    }
  }

  /**
   However creates, two-step updates, revocations and registrations interleave, the counter of an
   invite is the number of people registered with it, and that is never more than 20.
   */
  lemma Accounting(actions: seq<Action>, id: Key)
    requires id in Run(EMPTY, actions).tables.invites
    ensures var d := Run(EMPTY, actions).tables; d.invites[id].useCount == |Guests(d, id)| <= MOST_USES
  {
    RunKeeps(EMPTY, actions);
  }

  /** A stranger who has not registered yet may use the invite now. */
  predicate Open(d: Tables, row: Invite, user: Key, now: int) {
    && row.status == Active && row.useCount < row.maxUses && (row.expiresAt.Some? ==> row.expiresAt.value >= now)
    && row.inviter != user && user !in d.registrations
  }

  /** One more entry per reason, in order, each for this user and invite. */
  ghost predicate AddsSignals(before: seq<Signal>, after: seq<Signal>, user: Key, id: Key, reasons: seq<string>) {
    && |after| == |before| + |reasons| && before <= after
    && forall i | 0 <= i < |reasons| :: after[|before| + i] == Signal(user, id, reasons[i])
  }

  /**
   A transaction ends in a registration if and only if it found the invite, as it stands at the commit, open to the user,
   and the database took its statements. Then the row counts one use more and stays active exactly if uses are left, the
   user is recorded with the inviter and the code of the invite, and nothing else changes. Otherwise nothing changes.
   */
  lemma Registers(actions: seq<Action>, a: Action)
    requires a.Finish? && Enabled(Run(EMPTY, actions), a)
    ensures var s := Run(EMPTY, actions); var id := s.open[a.transaction].id;
      && id in s.tables.invites
      && Step(s, a).pending == s.pending && Step(s, a).open == s.open - {a.transaction}
      && if Open(s.tables, s.tables.invites[id], a.user, a.now) && Works(a) then Joins(s.tables, Step(s, a).tables, id, a.user, a.reasons)
         else Step(s, a).tables == s.tables
  {
    RunKeeps(EMPTY, actions);
    FaultsStop(Run(EMPTY, actions).tables, a);
  }

  /** No statement of the transaction is refused by the database. */
  ghost predicate Works(a: Action)
    requires a.Finish?
  {
    forall f <- a.faults :: f.InsertSignal? && f.index >= |a.reasons|
  }

  /** The user joins by the invite. */
  ghost predicate Joins(before: Tables, after: Tables, id: Key, user: Key, reasons: seq<string>)
    requires id in before.invites
  {
    var row := before.invites[id];
    && after.invites == before.invites[id := row.(useCount := row.useCount + 1,
                                                  status := if row.useCount + 1 < row.maxUses then Active else Expired)]
    && after.registrations == before.registrations[user := Registration(row.inviter, id, row.code)]
    && AddsSignals(before.signals, after.signals, user, id, reasons)
  }

  lemma FaultsStop(d: Tables, a: Action)
    requires a.Finish?
    ensures Fails(d.registrations, a.user, a.reasons, a.faults) <==> a.user in d.registrations || !Works(a)
  {
    if !Works(a) {
      var f :| f in a.faults && (f.InsertSignal? ==> f.index < |a.reasons|);
      match f
      case InsertSignal(i) => assert InsertSignal(i) in a.faults;
      case _ =>
    }
  }

  /** With a registration the guests of the invite grow by this user, and those of no other invite change. */
  lemma OneGuestMore(actions: seq<Action>, a: Action, id: Key)
    requires a.Finish? && Enabled(Run(EMPTY, actions), a) && Outcome(Run(EMPTY, actions), a).None?
    ensures var s := Run(EMPTY, actions);
      Guests(Step(s, a).tables, id) == Guests(s.tables, id) + if id == s.open[a.transaction].id then {a.user} else {}
  {
    var tx := Run(EMPTY, actions).open[a.transaction];
    NewGuest(Run(EMPTY, actions).tables, tx.id, tx.row, a.user, a.reasons, id);
  }

  // ----- previews

  /** A preview calls an invite valid exactly if a stranger could use it now and it does not expire this instant. */
  lemma PreviewAgrees(row: Invite, user: Key, now: int)
    requires user != row.inviter
    ensures PreviewOf(row, now).valid <==> Check(row, user, now).None? && row.expiresAt != Some(now)
    ensures PreviewOf(row, now).status == if Check(row, user, now) == Some(PastExpiry) then Expired else row.status
    ensures PreviewOf(row, now).remaining == if row.useCount < row.maxUses then row.maxUses - row.useCount else 0
  {
  }

  /** If the row is free and nothing comes between, what a valid preview promised is kept. */
  lemma PreviewIsKept(actions: seq<Action>, id: Key, user: Key, now: int, t: nat, reasons: seq<string>)
    requires var s := Run(EMPTY, actions);
      && id in s.tables.invites && !Locked(s, id) && t !in s.open
      && user != s.tables.invites[id].inviter && user !in s.tables.registrations
      && PreviewOf(s.tables.invites[id], now).valid
    ensures var s := Run(EMPTY, actions);
      var begun := Step(s, Begin(t, id, s.tables.invites[id].code));
      var d := Step(begun, Finish(t, user, now, reasons, {})).tables;
      user in d.registrations && d.registrations[user].inviteId == id
  {
    var s := Run(EMPTY, actions);
    PreviewAgrees(s.tables.invites[id], user, now);
  }

  // ----- what lasts

  lemma StepIsPermanent(s: System, a: Action)
    requires Invariant(s)
    ensures forall id | id in s.tables.invites :: id in Step(s, a).tables.invites
    ensures forall user | user in s.tables.registrations ::
      user in Step(s, a).tables.registrations && Step(s, a).tables.registrations[user] == s.tables.registrations[user]
  {
  }

  /** Nobody registers twice, and no registration is ever taken back or changed. */
  lemma {:induction false} RegistrationsLast(s: System, actions: seq<Action>, user: Key)
    requires Invariant(s) && user in s.tables.registrations
    ensures var d := Run(s, actions).tables; user in d.registrations && d.registrations[user] == s.tables.registrations[user]
  {
    if actions != [] {
      var init := actions[..|actions| - 1];
      RegistrationsLast(s, init, user);
      RunKeeps(s, init);
      StepIsPermanent(Run(s, init), actions[|actions| - 1]);
    }
  }

  // ----- revocation

  /** The step writes "active" into the invite's row, as the second half of an update. */
  predicate Reactivates(s: System, a: Action, id: Key) {
    a.WriteUpdate? && Enabled(s, a) && s.pending[a.update].id == id && s.pending[a.update].status == Active
  }

  predicate Usable(s: System, id: Key) {
    id in s.tables.invites && s.tables.invites[id].status == Active
  }

  lemma StepReactivates(s: System, a: Action, id: Key)
    requires Invariant(s) && id in s.tables.invites && !Usable(s, id)
    ensures id in Step(s, a).tables.invites
    ensures Usable(Step(s, a), id) <==> Reactivates(s, a, id)
  {
  }

  lemma StepAdmitsNobody(s: System, a: Action, id: Key)
    requires Invariant(s) && id in s.tables.invites && !Usable(s, id)
    ensures Guests(Step(s, a).tables, id) == Guests(s.tables, id)
  {
    if a.Finish? && Enabled(s, a) && Outcome(s, a).None? {
      NewGuest(s.tables, s.open[a.transaction].id, s.open[a.transaction].row, a.user, a.reasons, id);
    } else {
      assert Step(s, a).tables.registrations == s.tables.registrations;
      SameGuests(s.tables, Step(s, a).tables);
    }
  }

  /**
   An invite that is not active stays unusable and takes in nobody until the second half of some update
   writes "active" into it.
   */
  lemma {:induction false} RevocationHolds(s: System, actions: seq<Action>, id: Key)
    requires Invariant(s) && id in s.tables.invites && !Usable(s, id)
    requires forall k | 0 <= k < |actions| :: !Reactivates(Run(s, actions[..k]), actions[k], id)
    ensures var e := Run(s, actions); id in e.tables.invites && !Usable(e, id) && Guests(e.tables, id) == Guests(s.tables, id)
  {
    if actions != [] {
      var init := actions[..|actions| - 1];
      forall k | 0 <= k < |init| ensures !Reactivates(Run(s, init[..k]), init[k], id) {
        assert init[..k] == actions[..k];
      }
      RevocationHolds(s, init, id);
      RunKeeps(s, init);
      StepReactivates(Run(s, init), actions[|actions| - 1], id);
      StepAdmitsNobody(Run(s, init), actions[|actions| - 1], id);
    }
  }

  lemma Reactivated(s: System, actions: seq<Action>, id: Key, k: nat)
    requires Invariant(s) && id in s.tables.invites && !Usable(s, id)
    requires k <= |actions| && Usable(Run(s, actions[..k]), id)
    ensures exists j | 0 <= j < |actions| :: Reactivates(Run(s, actions[..j]), actions[j], id)
  {
    if forall j | 0 <= j < |actions| :: !Reactivates(Run(s, actions[..j]), actions[j], id) {
      var init := actions[..k];
      forall j | 0 <= j < k ensures !Reactivates(Run(s, init[..j]), init[j], id) {
        assert init[..j] == actions[..j];
      }
      RevocationHolds(s, init, id);
      assert false;
    }
  }

  lemma ReactivatedIsUsable(s: System, actions: seq<Action>, id: Key, j: nat)
    requires Invariant(s) && j < |actions| && Reactivates(Run(s, actions[..j]), actions[j], id)
    ensures Usable(Run(s, actions[..j + 1]), id)
  {
    RunKeeps(s, actions[..j]);
    assert actions[..j + 1][..j] == actions[..j];
  }

  /** And exactly then: some moment of the run finds the invite usable if and only if some step reactivated it. */
  lemma RevocationIsUndoneExactly(s: System, actions: seq<Action>, id: Key)
    requires Invariant(s) && id in s.tables.invites && !Usable(s, id)
    ensures (exists k | 0 <= k <= |actions| :: Usable(Run(s, actions[..k]), id)) <==>
            (exists j | 0 <= j < |actions| :: Reactivates(Run(s, actions[..j]), actions[j], id))
  {
    if k :| 0 <= k <= |actions| && Usable(Run(s, actions[..k]), id) {
      Reactivated(s, actions, id, k);
    }
    if j :| 0 <= j < |actions| && Reactivates(Run(s, actions[..j]), actions[j], id) {
      ReactivatedIsUsable(s, actions, id, j);
    }
  }

  /** An update of the invite that has been read and will write "active". */
  predicate ActivePending(s: System, id: Key) {
    exists u | u in s.pending :: s.pending[u].id == id && s.pending[u].status == Active
  }

  /** The step begins an update of the invite that asks for "active". */
  predicate AsksForActive(a: Action, id: Key) {
    a.ReadForUpdate? && a.id == id && a.request.status == Some(Active)
  }

  /** Unless somebody asks for "active", the run does not make the invite usable. */
  ghost predicate StaysRevoked(s: System, actions: seq<Action>, id: Key) {
    (forall a <- actions :: !AsksForActive(a, id)) ==> !Usable(Run(s, actions), id)
  }

  lemma StepStaysRevoked(s: System, a: Action, id: Key)
    requires Invariant(s) && id in s.tables.invites && !Usable(s, id) && !ActivePending(s, id) && !AsksForActive(a, id)
    ensures id in Step(s, a).tables.invites && !Usable(Step(s, a), id) && !ActivePending(Step(s, a), id)
  {
    StepReactivates(s, a, id);
  }

  lemma {:induction false} RunStaysRevoked(s: System, actions: seq<Action>, id: Key)
    requires Invariant(s) && id in s.tables.invites && !Usable(s, id) && !ActivePending(s, id)
    requires forall a <- actions :: !AsksForActive(a, id)
    ensures var e := Run(s, actions); id in e.tables.invites && !Usable(e, id) && !ActivePending(e, id)
  {
    if actions != [] {
      var init := actions[..|actions| - 1];
      RunStaysRevoked(s, init, id);
      RunKeeps(s, init);
      StepStaysRevoked(Run(s, init), actions[|actions| - 1], id);
    }
  }

  /** A pending write of "active" can be carried out, at the latest when the transaction that holds the row has ended. */
  lemma PendingUndoes(s: System, id: Key) returns (actions: seq<Action>)
    requires Invariant(s) && id in s.tables.invites && !Usable(s, id) && ActivePending(s, id)
    ensures !StaysRevoked(s, actions, id)
  {
    var u :| u in s.pending && s.pending[u].id == id && s.pending[u].status == Active;
    if Locked(s, id) {
      var t :| t in s.open && s.open[t].id == id;
      var finish := Finish(t, 0, 0, [], {});
      actions := [finish, WriteUpdate(u)];
      var free := Step(s, finish);
      StepKeeps(s, finish);
      assert !Locked(free, id);
      LastTwo(s, finish, WriteUpdate(u));
    } else {
      actions := [WriteUpdate(u)];
      LastOne(s, WriteUpdate(u));
    }
  }

  lemma LastOne(s: System, a: Action)
    ensures Run(s, [a]) == Step(s, a)
  {
    assert [a][..0] == [];
  }

  lemma LastTwo(s: System, a: Action, b: Action)
    ensures Run(s, [a, b]) == Step(Step(s, a), b)
  {
    LastOne(s, a);
    assert [a, b][..1] == [a];
  }

  /**
   What the revoker can see: the invite stays unusable in every run in which nobody asks for "active", if
   and only if no update that will write "active" is already under way.
   */
  lemma RevocationIsFinalExactly(s: System, id: Key)
    requires Invariant(s) && id in s.tables.invites && !Usable(s, id)
    ensures (forall actions :: StaysRevoked(s, actions, id)) <==> !ActivePending(s, id)
  {
    if ActivePending(s, id) {
      var actions := PendingUndoes(s, id);
    } else {
      forall actions ensures StaysRevoked(s, actions, id) {
        if forall a <- actions :: !AsksForActive(a, id) {
          RunStaysRevoked(s, actions, id);
        }
      }
    }
  }

  /** An update that asks for nothing but a note, begun while the invite was active, undoes a revocation. */
  lemma RevocationCanBeLost(s: System, u: nat, id: Key)
    requires Invariant(s) && Usable(s, id) && !Locked(s, id) && u !in s.pending
    ensures var inviter := s.tables.invites[id].inviter;
      var revoked := Step(Step(s, ReadForUpdate(u, inviter, id, UpdateRequest(None, None, Keep))), Revoke(inviter, id));
      !Usable(revoked, id) && Step(revoked, WriteUpdate(u)).tables == s.tables
  {
    var inviter := s.tables.invites[id].inviter;
    var read := Step(s, ReadForUpdate(u, inviter, id, UpdateRequest(None, None, Keep)));
    var revoked := Step(read, Revoke(inviter, id));
    assert Step(revoked, WriteUpdate(u)).tables.invites == s.tables.invites;
  }
}
