/** The four user mutations of `convex/users.ts` as one command type,
    and what sequences of them do to the `users` table.

    A failed mutation is rolled back, so replaying a sequence keeps the
    table of the last successful mutation.  The results below hold for
    every order of delivery: the table stays well formed, rows are never
    lost or re-keyed, and the online flag of a user is the one its last
    session-affecting mutation set. */
module Reconciler {
  import opened Wrappers
  import opened Users

  datatype Mutation =
    | Create(token: string, email: string, name: string, image: string)
    | Update(token: string, image: string)
    | Online(token: string)
    | Offline(token: string)

  /** One mutation.  Only `updateUser` can fail on a well-formed table,
      and only when the user is unknown. */
  function Apply(t: Table, m: Mutation): (r: Result<Table, Error>)
    ensures Valid(t) ==> (r.Failure? <==> m.Update? && !HasToken(t, m.token))
  {
    match m
    case Create(tok, e, n, i) =>
      (match CreateUser(t, tok, e, n, i)
       case Success(r) => Success(r.0)
       case Failure(err) => Failure(err))
    case Update(tok, i) => UpdateUser(t, tok, i)
    case Online(tok) => SetUserOnline(t, tok)
    case Offline(tok) => SetUserOffline(t, tok)
  }

  /** The table after one delivery: a failed mutation is rolled back. */
  function Next(t: Table, m: Mutation): (n: Table)
    ensures Valid(t) && m.Update? && !HasToken(t, m.token) ==> n == t
  {
    match Apply(t, m)
    case Success(after) => after
    case Failure(_) => t
  }

  /** The table after delivering `ms` in order.  Whatever the order, a
      well-formed table stays well formed, and no row is deleted or
      changes its token. */
  function Replay(t: Table, ms: seq<Mutation>): (r: Table)
    ensures Valid(t) ==> Valid(r) && KeepsRows(t, r)
    decreases |ms|
  {
    if |ms| == 0 then t
    else
      var before := Replay(t, ms[..|ms| - 1]);
      NextStepIfValid(before, ms[|ms| - 1]);
      Next(before, ms[|ms| - 1])
  }

  lemma ReplayLast(t: Table, ms: seq<Mutation>)
    requires |ms| > 0
    ensures Replay(t, ms) == Next(Replay(t, ms[..|ms| - 1]), ms[|ms| - 1])
  {
  }

  /** A mutation that inserts a row for `tok` when there is none. */
  predicate Inserts(m: Mutation, tok: string) {
    (m.Create? || m.Online?) && m.token == tok
  }

  /** No row is deleted and no row changes its token. */
  ghost predicate KeepsRows(t: Table, t': Table) {
    forall id :: id in t.rows ==> id in t'.rows && t'.rows[id].tokenIdentifier == t.rows[id].tokenIdentifier
  }

  /** What one mutation does to the rows of one user `tok`: a mutation
      for another user, and `updateUser`, leave their presence alone; the
      others set it; only `createUser` and `setUserOnline` add a row. */
  ghost predicate StepOnToken(t: Table, m: Mutation, tok: string, t': Table) {
    forall id :: id in t'.rows && t'.rows[id].tokenIdentifier == tok ==>
      && (!Inserts(m, tok) ==> id in t.rows)
      && (if m.token == tok && !m.Update? then t'.rows[id].isOnline == !m.Offline?
          else id in t.rows && t'.rows[id].isOnline == t.rows[id].isOnline)
  }

  /** Everything one delivery is proved to do on a well-formed table. */
  ghost predicate GoodStep(t: Table, m: Mutation, t': Table) {
    && Valid(t')
    && KeepsRows(t, t')
    && (forall tok :: StepOnToken(t, m, tok, t'))
  }

  // Closed forms of each mutation on a well-formed table.

  lemma CreatePresent(t: Table, id: Id, tok: string, e: string, n: string, i: string)
    requires Valid(t) && id in t.rows && t.rows[id].tokenIdentifier == tok
    ensures CreateUser(t, tok, e, n, i) == Success((Table(t.rows[id := User(tok, e, n, i, true)], t.nextId), id))
  {
    FindInValid(t, tok, id);
  }

  lemma CreateAbsent(t: Table, tok: string, e: string, n: string, i: string)
    requires Valid(t) && !HasToken(t, tok)
    ensures CreateUser(t, tok, e, n, i) == Success((Table(t.rows[t.nextId := User(tok, e, n, i, true)], t.nextId + 1), t.nextId))
  {
  }

  lemma UpdatePresent(t: Table, id: Id, tok: string, i: string)
    requires Valid(t) && id in t.rows && t.rows[id].tokenIdentifier == tok
    ensures UpdateUser(t, tok, i) == Success(Table(t.rows[id := t.rows[id].(image := i)], t.nextId))
  {
    FindInValid(t, tok, id);
  }

  lemma OnlinePresent(t: Table, id: Id, tok: string)
    requires Valid(t) && id in t.rows && t.rows[id].tokenIdentifier == tok
    ensures SetUserOnline(t, tok) == Success(Table(t.rows[id := t.rows[id].(isOnline := true)], t.nextId))
  {
    FindInValid(t, tok, id);
  }

  lemma OnlineAbsent(t: Table, tok: string)
    requires Valid(t) && !HasToken(t, tok)
    ensures SetUserOnline(t, tok) == Success(Table(t.rows[t.nextId := User(tok, GuestEmail, GuestName, GuestImage, true)], t.nextId + 1))
  {
  }

  lemma OfflinePresent(t: Table, id: Id, tok: string)
    requires Valid(t) && id in t.rows && t.rows[id].tokenIdentifier == tok
    ensures SetUserOffline(t, tok) == Success(Table(t.rows[id := t.rows[id].(isOnline := false)], t.nextId))
  {
    FindInValid(t, tok, id);
  }

  // The effect of each kind of patch and insert on a well-formed table.

  /** Overwriting the row `id` with one of the same token. */
  lemma PatchStep(t: Table, m: Mutation, id: Id, u: User)
    requires Valid(t) && id in t.rows && t.rows[id].tokenIdentifier == m.token
    requires u.tokenIdentifier == m.token
    requires if m.Update? then u.isOnline == t.rows[id].isOnline else u.isOnline == !m.Offline?
    ensures GoodStep(t, m, Table(t.rows[id := u], t.nextId))
  {
    var t' := Table(t.rows[id := u], t.nextId);
    forall a, b | a in t'.rows && b in t'.rows && t'.rows[a].tokenIdentifier == t'.rows[b].tokenIdentifier
      ensures a == b
    {
      assert t.rows[a].tokenIdentifier == t.rows[b].tokenIdentifier;
    }
  }

  /** Inserting a row for a token that has none. */
  lemma InsertStep(t: Table, m: Mutation, u: User)
    requires Valid(t) && !HasToken(t, m.token) && (m.Create? || m.Online?)
    requires u.tokenIdentifier == m.token && u.isOnline
    ensures GoodStep(t, m, Table(t.rows[t.nextId := u], t.nextId + 1))
  {
  }

  /** Every delivery on a well-formed table is a `GoodStep`. */
  lemma NextStep(t: Table, m: Mutation)
    requires Valid(t)
    ensures GoodStep(t, m, Next(t, m))
  {
    if HasToken(t, m.token) {
      var id :| id in t.rows && t.rows[id].tokenIdentifier == m.token;
      var row := t.rows[id];
      match m
      case Create(tok, e, n, i) =>
        CreatePresent(t, id, tok, e, n, i);
        PatchStep(t, m, id, User(tok, e, n, i, true));
      case Update(tok, i) =>
        UpdatePresent(t, id, tok, i);
        PatchStep(t, m, id, row.(image := i));
      case Online(tok) =>
        OnlinePresent(t, id, tok);
        PatchStep(t, m, id, row.(isOnline := true));
      case Offline(tok) =>
        OfflinePresent(t, id, tok);
        PatchStep(t, m, id, row.(isOnline := false));
    } else {
      match m
      case Create(tok, e, n, i) =>
        CreateAbsent(t, tok, e, n, i);
        InsertStep(t, m, User(tok, e, n, i, true));
      case Update(tok, i) =>
        assert Next(t, m) == t;
      case Online(tok) =>
        OnlineAbsent(t, tok);
        InsertStep(t, m, User(tok, GuestEmail, GuestName, GuestImage, true));
      case Offline(tok) =>
        assert Next(t, m) == t;
    }
  }

  lemma NextStepIfValid(t: Table, m: Mutation)
    ensures Valid(t) ==> GoodStep(t, m, Next(t, m))
  {
    if Valid(t) {
      NextStep(t, m);
    }
  }

  lemma NextValid(t: Table, m: Mutation)
    requires Valid(t)
    ensures Valid(Next(t, m))
  {
    NextStep(t, m);
  }

  /** Each mutation keeps the table well formed: ids stay below the
      fresh-id counter and no token gets a second row, because an insert
      happens only after the lookup by token found nothing. */
  lemma ApplyPreservesValid(t: Table, m: Mutation)
    requires Valid(t)
    ensures Apply(t, m).Success? ==> Valid(Apply(t, m).value)
  {
    NextStep(t, m);
  }

  /** A row keeps its id and its token for ever: a later `user.created`
      patches the row a `session.created` inserted, never a fresh one. */
  lemma ReplayKeepsRows(t: Table, ms: seq<Mutation>, id: Id)
    requires Valid(t) && id in t.rows
    ensures id in Replay(t, ms).rows
    ensures Replay(t, ms).rows[id].tokenIdentifier == t.rows[id].tokenIdentifier
  {
  }

  /** The online flag the last session-affecting mutation for `tok` in
      `ms` sets: `createUser` and `setUserOnline` set it, `setUserOffline`
      clears it, `updateUser` leaves it alone.  `None` when no such
      mutation is in `ms`. */
  function LastPresence(ms: seq<Mutation>, tok: string): Option<bool>
    decreases |ms|
  {
    if |ms| == 0 then None
    else
      var m := ms[|ms| - 1];
      if m.token != tok || m.Update? then LastPresence(ms[..|ms| - 1], tok)
      else Some(!m.Offline?)
  }

  /** Convergence of presence: whatever the delivery order, each row for
      `tok` is online exactly as the last session-affecting mutation for
      `tok` left it. */
  lemma {:induction false} PresenceFollowsLastEvent(t: Table, ms: seq<Mutation>, tok: string)
    requires Valid(t)
    requires LastPresence(ms, tok).Some?
    ensures forall id :: id in Replay(t, ms).rows && Replay(t, ms).rows[id].tokenIdentifier == tok ==>
              Replay(t, ms).rows[id].isOnline == LastPresence(ms, tok).value
    decreases |ms|
  {
    var ms' := ms[..|ms| - 1];
    var m := ms[|ms| - 1];
    var before := Replay(t, ms');
    var after := Replay(t, ms);
    ReplayLast(t, ms);
    NextStep(before, m);
    assert StepOnToken(before, m, tok, after);
    var b := LastPresence(ms, tok).value;
    if m.token != tok || m.Update? {
      assert LastPresence(ms', tok) == LastPresence(ms, tok);
      PresenceFollowsLastEvent(t, ms', tok);
      forall id | id in after.rows && after.rows[id].tokenIdentifier == tok
        ensures after.rows[id].isOnline == b
      {
        assert id in before.rows && after.rows[id].isOnline == before.rows[id].isOnline;
        assert before.rows[id].tokenIdentifier == tok;
      }
    }
  }

  /** One delivery: a user has a row afterwards exactly when it had one
      before or the delivery inserts one. */
  lemma NextHasToken(t: Table, m: Mutation, tok: string)
    requires Valid(t)
    ensures HasToken(Next(t, m), tok) <==> HasToken(t, tok) || Inserts(m, tok)
  {
    var after := Next(t, m);
    NextStep(t, m);
    assert StepOnToken(t, m, tok, after);
    if HasToken(t, tok) {
      var id :| id in t.rows && t.rows[id].tokenIdentifier == tok;
      assert after.rows[id].tokenIdentifier == tok;
    }
    if Inserts(m, tok) && !HasToken(t, tok) {
      if m.Create? {
        CreateAbsent(t, tok, m.email, m.name, m.image);
      } else {
        OnlineAbsent(t, tok);
      }
      assert after.rows[t.nextId].tokenIdentifier == tok;
    }
    if HasToken(after, tok) && !Inserts(m, tok) {
      var id :| id in after.rows && after.rows[id].tokenIdentifier == tok;
      assert id in t.rows && t.rows[id].tokenIdentifier == tok;
    }
  }

  /** A user has a row after a sequence of deliveries exactly when it had
      one before or some delivery was `user.created` or `session.created`
      for it. */
  lemma {:induction false} RowExistsIff(t: Table, ms: seq<Mutation>, tok: string)
    requires Valid(t)
    ensures HasToken(Replay(t, ms), tok) <==>
              HasToken(t, tok) || exists k :: 0 <= k < |ms| && Inserts(ms[k], tok)
    decreases |ms|
  {
    if |ms| > 0 {
      var ms' := ms[..|ms| - 1];
      var m := ms[|ms| - 1];
      var before := Replay(t, ms');
      ReplayLast(t, ms);
      RowExistsIff(t, ms', tok);
      InsertsSplit(ms, tok);
      assert Valid(before);
      NextHasToken(before, m, tok);
    }
  }

  /** Some delivery of `ms` inserts `tok` exactly when one of its prefix
      or its last delivery does. */
  lemma InsertsSplit(ms: seq<Mutation>, tok: string)
    requires |ms| > 0
    ensures var ms' := ms[..|ms| - 1];
      (exists k :: 0 <= k < |ms| && Inserts(ms[k], tok)) <==>
      (exists k :: 0 <= k < |ms'| && Inserts(ms'[k], tok)) || Inserts(ms[|ms| - 1], tok)
  {
    var ms' := ms[..|ms| - 1];
    if exists k :: 0 <= k < |ms'| && Inserts(ms'[k], tok) {
      var k :| 0 <= k < |ms'| && Inserts(ms'[k], tok);
      assert ms[k] == ms'[k];
    }
    if exists k :: 0 <= k < |ms| && Inserts(ms[k], tok) {
      var k :| 0 <= k < |ms| && Inserts(ms[k], tok);
      if k < |ms'| {
        assert ms'[k] == ms[k];
      }
    }
  }

  /** Reprocessing a `user.created` delivery changes nothing: the second
      application returns the same id and the same table. */
  lemma CreateIdempotent(t: Table, tok: string, e: string, n: string, i: string)
    requires Valid(t)
    ensures CreateUser(t, tok, e, n, i).Success?
    ensures var (t1, id1) := CreateUser(t, tok, e, n, i).value;
      CreateUser(t1, tok, e, n, i) == Success((t1, id1))
  {
    var (t1, id1) := CreateUser(t, tok, e, n, i).value;
    NextStep(t, Create(tok, e, n, i));
    assert Next(t, Create(tok, e, n, i)) == t1;
    CreatePresent(t1, id1, tok, e, n, i);
    assert t1.rows[id1 := User(tok, e, n, i, true)] == t1.rows;
  }

  /** Enrichment keeps identity: a guest row created by `session.created`
      is patched, not re-inserted, by a later `user.created`, and it is
      the only row for the user. */
  lemma EnrichmentKeepsId(t: Table, tok: string, e: string, n: string, i: string)
    requires Valid(t) && !HasToken(t, tok)
    ensures var guest := SetUserOnline(t, tok).value;
      && guest.rows[t.nextId] == User(tok, GuestEmail, GuestName, GuestImage, true)
      && CreateUser(guest, tok, e, n, i).Success?
      && CreateUser(guest, tok, e, n, i).value.1 == t.nextId
      && var full := CreateUser(guest, tok, e, n, i).value.0;
         && full.rows[t.nextId] == User(tok, e, n, i, true)
         && full.rows.Keys == t.rows.Keys + {t.nextId}
         && forall id :: id in full.rows && full.rows[id].tokenIdentifier == tok ==> id == t.nextId
  {
    OnlineAbsent(t, tok);
    var guest := SetUserOnline(t, tok).value;
    NextStep(t, Online(tok));
    CreatePresent(guest, t.nextId, tok, e, n, i);
    NextStep(guest, Create(tok, e, n, i));
  }

  /** A session that ends before anything is known about the user leaves
      the table untouched and raises no error. */
  lemma OfflineFirstIsNoop(t: Table, tok: string)
    requires Valid(t) && !HasToken(t, tok)
    ensures Apply(t, Offline(tok)) == Success(t)
  {
  }

  /** Three deliveries in a row: the scenarios below are stated as
      `Next` chains, which is what `Replay` of three mutations is. */
  lemma ReplayThree(t: Table, a: Mutation, b: Mutation, c: Mutation)
    ensures Replay(t, [a, b, c]) == Next(Next(Next(t, a), b), c)
  {
    var ms := [a, b, c];
    assert ms[..2] == [a, b] && ms[..2][..1] == [a] && ms[..1][..0] == [];
    ReplayLast(t, ms);
    ReplayLast(t, [a, b]);
    ReplayLast(t, [a]);
  }

  // The same closed forms, one delivery at a time.

  lemma NextCreateAbsent(t: Table, tok: string, e: string, n: string, i: string)
    requires Valid(t) && !HasToken(t, tok)
    ensures Next(t, Create(tok, e, n, i)) == Table(t.rows[t.nextId := User(tok, e, n, i, true)], t.nextId + 1)
    ensures Valid(Next(t, Create(tok, e, n, i)))
  {
    CreateAbsent(t, tok, e, n, i);
    NextValid(t, Create(tok, e, n, i));
  }

  lemma NextCreatePresent(t: Table, id: Id, tok: string, e: string, n: string, i: string)
    requires Valid(t) && id in t.rows && t.rows[id].tokenIdentifier == tok
    ensures Next(t, Create(tok, e, n, i)) == Table(t.rows[id := User(tok, e, n, i, true)], t.nextId)
    ensures Valid(Next(t, Create(tok, e, n, i)))
  {
    CreatePresent(t, id, tok, e, n, i);
    NextValid(t, Create(tok, e, n, i));
  }

  lemma NextOnlineAbsent(t: Table, tok: string)
    requires Valid(t) && !HasToken(t, tok)
    ensures Next(t, Online(tok)) == Table(t.rows[t.nextId := User(tok, GuestEmail, GuestName, GuestImage, true)], t.nextId + 1)
    ensures Valid(Next(t, Online(tok)))
  {
    OnlineAbsent(t, tok);
    NextValid(t, Online(tok));
  }

  lemma NextOnlinePresent(t: Table, id: Id, tok: string)
    requires Valid(t) && id in t.rows && t.rows[id].tokenIdentifier == tok
    ensures Next(t, Online(tok)) == Table(t.rows[id := t.rows[id].(isOnline := true)], t.nextId)
  {
    OnlinePresent(t, id, tok);
  }

  lemma NextOfflinePresent(t: Table, id: Id, tok: string)
    requires Valid(t) && id in t.rows && t.rows[id].tokenIdentifier == tok
    ensures Next(t, Offline(tok)) == Table(t.rows[id := t.rows[id].(isOnline := false)], t.nextId)
    ensures Valid(Next(t, Offline(tok)))
  {
    OfflinePresent(t, id, tok);
    NextValid(t, Offline(tok));
  }

  /** Session, profile, end of session: one row, the profile, offline. */
  lemma ScenarioSessionFirst(t: Table, tok: string, e: string, n: string, i: string)
    requires Valid(t) && !HasToken(t, tok)
    ensures var r := Next(Next(Next(t, Online(tok)), Create(tok, e, n, i)), Offline(tok));
      && r.rows.Keys == t.rows.Keys + {t.nextId}
      && r.rows[t.nextId] == User(tok, e, n, i, false)
  {
    var id := t.nextId;
    NextOnlineAbsent(t, tok);
    var r1 := Next(t, Online(tok));
    NextCreatePresent(r1, id, tok, e, n, i);
    var r2 := Next(r1, Create(tok, e, n, i));
    NextOfflinePresent(r2, id, tok);
  }

  /** Profile, end of session, session: one row, the profile, online. */
  lemma ScenarioProfileFirst(t: Table, tok: string, e: string, n: string, i: string)
    requires Valid(t) && !HasToken(t, tok)
    ensures var r := Next(Next(Next(t, Create(tok, e, n, i)), Offline(tok)), Online(tok));
      && r.rows.Keys == t.rows.Keys + {t.nextId}
      && r.rows[t.nextId] == User(tok, e, n, i, true)
  {
    var id := t.nextId;
    NextCreateAbsent(t, tok, e, n, i);
    var r1 := Next(t, Create(tok, e, n, i));
    NextOfflinePresent(r1, id, tok);
    var r2 := Next(r1, Offline(tok));
    NextOnlinePresent(r2, id, tok);
  }
}
