/** The statements behind the invite endpoints, on the tables they read and write. */
module InviteStore {
  import opened Options
  import opened Invites
  import opened InviteRuns

  datatype Result = Registered(id: Key, inviter: Key) | Refused(reason: Refusal)

  /** What consuming the invite in row `id` answers and leaves behind. */
  ghost predicate Consumes(d: Tables, id: Key, user: Key, now: int, reasons: seq<string>, faults: set<Statement>,
                           r: Result, e: Tables)
    requires id in d.invites
  {
    match Verdict(d, d.invites[id], user, now, reasons, faults)
    case None => r == Registered(id, d.invites[id].inviter) && e == Committed(d, id, d.invites[id], user, reasons)
    case Some(refusal) => r == Refused(refusal) && e == d
  }

  /** Which refusal the row gives rise to: the first check that it does not pass. */
  ghost predicate Explained(d: Tables, row: Invite, user: Key, now: int, r: Result) {
    var past := row.expiresAt.Some? && row.expiresAt.value < now;
    && r != Refused(NotFound)
    && (r == Refused(Inactive) <==> row.status != Active)
    && (r == Refused(PastExpiry) <==> row.status == Active && past)
    && (r == Refused(Exhausted) <==> row.status == Active && !past && row.useCount >= row.maxUses)
    && (r == Refused(SelfInvite) <==> row.status == Active && !past && row.useCount < row.maxUses && row.inviter == user)
  }

  /** Consuming is taking the row and finishing, with nothing in between on the same row. */
  lemma ConsumeIsTwoSteps(s: System, t: nat, id: Key, user: Key, now: int, reasons: seq<string>,
                          faults: set<Statement>, r: Result, e: Tables)
    requires id in s.tables.invites && !Locked(s, id) && t !in s.open
    requires Consumes(s.tables, id, user, now, reasons, faults, r, e)
    ensures var begun := Step(s, Begin(t, id, s.tables.invites[id].code));
      Step(begun, Finish(t, user, now, reasons, faults)) == s.(tables := e)
  {
    var begun := Step(s, Begin(t, id, s.tables.invites[id].code));
    assert begun.open - {t} == s.open;
  }

  class Storage {
    var invites: map<Key, Invite>
    var registrations: map<Key, Registration>
    var signals: seq<Signal>

    function Contents(): Tables
      reads this
    {
      Tables(invites, registrations, signals)
    }

    constructor ()
      ensures Contents() == EMPTY.tables
    {
      invites, registrations, signals := map[], map[], [];
    }

    /** The columns id and code are unique: an insert that repeats one of them fails. */
    method Create(id: Key, code: Key, inviter: Key, request: CreateRequest, now: int) returns (done: bool)
      modifies this
      ensures Contents() == Created(old(Contents()), id, code, inviter, request, now)
      ensures done <==>
        request.maxUses <= MOST_USES && 0 <= request.expiresInDays <= 90 && id !in old(invites) && !CodeTaken(old(invites), code)
      ensures registrations == old(registrations) && signals == old(signals)
      ensures !done ==> invites == old(invites)
      ensures done ==> invites == old(invites)[id :=
        Invite(code, inviter, Active, if request.maxUses < 1 then 1 else request.maxUses, 0,
               if request.expiresInDays == 0 then None else Some(now + request.expiresInDays * DAY))]
    {
      var maxUses := request.maxUses;
      if maxUses <= 0 {
        maxUses := 1;
      }
      if maxUses > MOST_USES || request.expiresInDays < 0 || request.expiresInDays > 90 {
        return false;
      }
      var expiresAt := None;
      if request.expiresInDays > 0 {
        expiresAt := Some(now + request.expiresInDays * DAY);
      }
      if id in invites || CodeTaken(invites, code) {
        return false;
      }
      invites := invites[id := Invite(code, inviter, Active, maxUses, 0, expiresAt)];
      done := true;
    }

    /** The first half of an update: read the row and lay the request over it. */
    method ReadForUpdate(inviter: Key, id: Key, request: UpdateRequest) returns (w: Option<Write>)
      ensures w == Planned(Contents(), inviter, id, request)
      ensures w.Some? <==>
        && id in invites && invites[id].inviter == inviter && !request.expiry.Malformed?
        && (request.maxUses.Some? ==> 1 <= request.maxUses.value <= MOST_USES)
      ensures w.Some? ==> var row := Overlaid(invites[id], request);
        w.value == Write(inviter, id, row.status, row.maxUses, row.expiresAt)
    {
      if request.maxUses.Some? && (request.maxUses.value < 1 || request.maxUses.value > MOST_USES) {
        return None;
      }
      if id !in invites || invites[id].inviter != inviter {
        return None;
      }
      var status, maxUses, expiresAt := invites[id].status, invites[id].maxUses, invites[id].expiresAt;
      if request.status.Some? {
        status := request.status.value;
      }
      if request.maxUses.Some? {
        maxUses := request.maxUses.value;
      }
      match request.expiry {
        case Keep =>
        case Clear => expiresAt := None;
        case Until(at) => expiresAt := Some(at);
        case Malformed => return None;
      }
      w := Some(Write(inviter, id, status, maxUses, expiresAt));
    }

    /** The second half of an update: overwrite the columns with what was planned. */
    method WriteUpdate(w: Write) returns (found: bool)
      modifies this`invites
      ensures Contents() == Written(old(Contents()), w)
      ensures found <==> w.id in old(invites) && old(invites)[w.id].inviter == w.inviter
      ensures !found ==> invites == old(invites)
      ensures found ==> invites == old(invites)[w.id :=
        old(invites)[w.id].(status := w.status, maxUses := w.maxUses, expiresAt := w.expiresAt)]
    {
      found := w.id in invites && invites[w.id].inviter == w.inviter;
      if found {
        invites := invites[w.id := invites[w.id].(status := w.status, maxUses := w.maxUses, expiresAt := w.expiresAt)];
      }
    }

    method Revoke(inviter: Key, id: Key) returns (found: bool)
      modifies this`invites
      ensures Contents() == RevokedIn(old(Contents()), inviter, id)
      ensures found <==> id in old(invites) && old(invites)[id].inviter == inviter
      ensures invites == if found then old(invites)[id := old(invites)[id].(status := Revoked)] else old(invites)
    {
      found := id in invites && invites[id].inviter == inviter;
      if found {
        invites := invites[id := invites[id].(status := Revoked)];
      }
    }

    method Preview(code: Key, now: int) returns (p: Option<Invites.Preview>)
      requires CodesDiffer(Contents())
      ensures p.None? <==> !CodeTaken(invites, code)
      ensures forall id | id in invites && invites[id].code == code :: p == Some(PreviewOf(invites[id], now))
    {
      if id :| id in invites && invites[id].code == code {
        var row := invites[id];
        var remaining := row.maxUses - row.useCount;
        if remaining < 0 {
          remaining := 0;
        }
        var status := row.status;
        var valid := status == Active && remaining > 0 && (row.expiresAt.None? || row.expiresAt.value > now);
        if row.expiresAt.Some? && row.expiresAt.value < now && status == Active {
          status, valid := Expired, false;
        }
        p := Some(Invites.Preview(status, remaining, valid));
      } else {
        p := None;
      }
    }

    /** Insert a row per reason; none if the database refuses one of them. */
    static method InsertSignals(before: seq<Signal>, user: Key, id: Key, reasons: seq<string>, faults: set<Statement>)
      returns (after: Option<seq<Signal>>)
      ensures after.None? <==> exists i :: 0 <= i < |reasons| && InsertSignal(i) in faults
      ensures after.Some? ==> after.value == before + Signals(user, id, reasons) && AddsSignals(before, after.value, user, id, reasons)
    {
      var rows := before;
      for i := 0 to |reasons|
        invariant rows == before + Signals(user, id, reasons)[..i]
        invariant forall k | 0 <= k < i :: InsertSignal(k) !in faults
      {
        if InsertSignal(i) in faults {
          return None;
        }
        rows := rows + [Signal(user, id, reasons[i])];
      }
      after := Some(rows);
    }

    /**
     Register a user with an invite. The transaction works on its own copy of the tables; a return
     before the last line drops the copy, and with it the "expired" it may already have written.
     */
    method Consume(code: Key, user: Key, now: int, reasons: seq<string>, faults: set<Statement>) returns (r: Result)
      requires CodesDiffer(Contents())
      modifies this
      ensures !CodeTaken(old(invites), code) ==> r == Refused(NotFound) && Contents() == old(Contents())
      ensures forall id | id in old(invites) && old(invites)[id].code == code ::
        Consumes(old(Contents()), id, user, now, reasons, faults, r, Contents())
      ensures forall id | id in old(invites) && old(invites)[id].code == code :: Explained(old(Contents()), old(invites)[id], user, now, r)
      ensures r.Refused? ==> Contents() == old(Contents())
      ensures r.Registered? ==> r.id in old(invites) && Open(old(Contents()), old(invites)[r.id], user, now)
      ensures r.Registered? ==>
        && old(invites)[r.id].code == code && old(invites)[r.id].inviter == r.inviter
        && Joins(old(Contents()), Contents(), r.id, user, reasons)
    {
      var tx := Contents();
      if id :| id in tx.invites && tx.invites[id].code == code {
        var row := tx.invites[id];
        if row.status != Active {
          return Refused(Inactive);
        }
        if row.expiresAt.Some? && row.expiresAt.value < now {
          tx := tx.(invites := tx.invites[id := row.(status := Expired)]);
          return Refused(PastExpiry);
        }
        if row.useCount >= row.maxUses {
          return Refused(Exhausted);
        }
        if row.inviter == user {
          return Refused(SelfInvite);
        }
        if user in tx.registrations || InsertRegistration in faults {
          return Refused(DatabaseError);
        }
        tx := tx.(registrations := tx.registrations[user := Registration(row.inviter, id, code)]);
        var inserted := InsertSignals(tx.signals, user, id, reasons, faults);
        if inserted.None? {
          return Refused(DatabaseError);
        }
        tx := tx.(signals := inserted.value);
        if UpdateInvite in faults {
          return Refused(DatabaseError);
        }
        var status := if row.useCount + 1 >= row.maxUses then Expired else row.status;
        tx := tx.(invites := tx.invites[id := tx.invites[id].(useCount := row.useCount + 1, status := status)]);
        if Commit in faults {
          return Refused(DatabaseError);
        }
        invites, registrations, signals := tx.invites, tx.registrations, tx.signals;
        r := Registered(id, row.inviter);
      } else {
        r := Refused(NotFound);
      }
    }
  }
}
