/** The user reconciler of `convex/users.ts`: four mutations and two
    queries over the `users` table, keyed by `tokenIdentifier`.

    The table is a map from document id to row plus the id the next
    insert receives.  Ids are handed out in increasing order, so listing
    the map by id is the creation order `.collect()` returns.  Every
    mutation runs as one transaction: it either returns a new table or
    fails and leaves the table as it was. */
module Users {
  import opened Wrappers

  type Id = nat

  datatype User = User(
    tokenIdentifier: string,
    email: string,
    name: string,
    image: string,
    isOnline: bool)

  datatype Table = Table(rows: map<Id, User>, nextId: Id)

  /** The errors a mutation or query of this file raises. */
  datatype Error =
    | Unauthorized   // no authenticated identity
    | UserNotFound   // no row for the token
    | NotUnique      // `.unique()` found more than one row

  function Message(e: Error): string {
    match e
    case Unauthorized => "Unauthorized"
    case UserNotFound => "User not found"
    case NotUnique => "unique() query returned more than one result"
  }

  /** The placeholder fields `setUserOnline` writes for an unknown user. */
  const GuestEmail := "unknown@example.com"
  const GuestName := "Guest"
  const GuestImage := "https://picsum.photos/64"

  const Empty := Table(map[], 0)

  /** Every id is below the next fresh id. */
  ghost predicate IdsFresh(t: Table) {
    forall id :: id in t.rows ==> id < t.nextId
  }

  /** At most one row per token identifier. */
  ghost predicate UniqueTokens(t: Table) {
    forall i, j :: i in t.rows && j in t.rows && t.rows[i].tokenIdentifier == t.rows[j].tokenIdentifier ==> i == j
  }

  ghost predicate Valid(t: Table) {
    IdsFresh(t) && UniqueTokens(t)
  }

  ghost predicate HasToken(t: Table, token: string) {
    exists id :: id in t.rows && t.rows[id].tokenIdentifier == token
  }

  predicate Ascending(ids: seq<Id>) {
    forall a, b :: 0 <= a < b < |ids| ==> ids[a] < ids[b]
  }

  lemma PrependAscending(x: Id, ids: seq<Id>)
    requires Ascending(ids) && forall k :: 0 <= k < |ids| ==> x < ids[k]
    ensures Ascending([x] + ids)
  {
    var s := [x] + ids;
    forall a, b | 0 <= a < b < |s| ensures s[a] < s[b] {
      assert s[b] == ids[b - 1];
      if a > 0 {
        assert s[a] == ids[a - 1];
      }
    }
  }

  /** The tail of an ascending list is ascending and above its head. */
  lemma AscendingTail(ids: seq<Id>)
    requires |ids| > 0 && Ascending(ids)
    ensures Ascending(ids[1..])
    ensures forall x :: x in ids[1..] ==> ids[0] < x
  {
    var tail := ids[1..];
    forall a, b | 0 <= a < b < |tail| ensures tail[a] < tail[b] {
      assert tail[a] == ids[a + 1] && tail[b] == ids[b + 1];
    }
    forall x | x in tail ensures ids[0] < x {
      var j :| 0 <= j < |tail| && tail[j] == x;
      assert ids[j + 1] == x;
    }
  }

  /** The row ids in `[lo, hi)`, ascending. */
  function IdsFrom(rows: map<Id, User>, lo: nat, hi: nat): (ids: seq<Id>)
    ensures forall k :: 0 <= k < |ids| ==> lo <= ids[k] < hi && ids[k] in rows
    ensures forall id :: lo <= id < hi && id in rows ==> id in ids
    ensures Ascending(ids)
    decreases hi - lo
  {
    if lo >= hi then []
    else
      var rest := IdsFrom(rows, lo + 1, hi);
      if lo in rows then
        PrependAscending(lo, rest);
        [lo] + rest
      else rest
  }

  /** The rows under `ids`, in that order. */
  function RowsOf(t: Table, ids: seq<Id>): (r: seq<User>)
    requires forall k :: 0 <= k < |ids| ==> ids[k] in t.rows
    ensures |r| == |ids| && forall k :: 0 <= k < |r| ==> r[k] == t.rows[ids[k]]
  {
    seq(|ids|, k requires 0 <= k < |ids| => t.rows[ids[k]])
  }

  /** The rows in creation order: what `ctx.db.query("users").collect()`
      yields.  One entry per row, ordered by id. */
  function Rows(t: Table): (r: seq<User>)
    ensures var ids := IdsFrom(t.rows, 0, t.nextId);
      |r| == |ids| && forall k :: 0 <= k < |r| ==> r[k] == t.rows[ids[k]]
    ensures forall id :: id in t.rows && id < t.nextId ==> t.rows[id] in r
    ensures forall k :: 0 <= k < |r| ==> r[k] in t.rows.Values
  {
    var ids := IdsFrom(t.rows, 0, t.nextId);
    var r := RowsOf(t, ids);
    assert forall id :: id in t.rows && id < t.nextId ==> t.rows[id] in r by {
      forall id | id in t.rows && id < t.nextId ensures t.rows[id] in r {
        var k :| 0 <= k < |ids| && ids[k] == id;
        assert r[k] == t.rows[id];
      }
    }
    r
  }

  /** The ids, in creation order, of the rows carrying `token`. */
  function Matching(t: Table, ids: seq<Id>, token: string): (m: seq<Id>)
    requires forall k :: 0 <= k < |ids| ==> ids[k] in t.rows
    ensures forall k :: 0 <= k < |m| ==> m[k] in ids && t.rows[m[k]].tokenIdentifier == token
    ensures forall k :: 0 <= k < |ids| && t.rows[ids[k]].tokenIdentifier == token ==> ids[k] in m
    ensures |m| <= |ids|
    ensures Ascending(ids) ==> Ascending(m)
  {
    if |ids| == 0 then []
    else
      var rest := Matching(t, ids[1..], token);
      assert Ascending(ids) ==> Ascending(rest) && forall k :: 0 <= k < |rest| ==> ids[0] < rest[k] by {
        if Ascending(ids) {
          AscendingTail(ids);
        }
      }
      if t.rows[ids[0]].tokenIdentifier == token then
        assert Ascending(ids) ==> Ascending([ids[0]] + rest) by {
          if Ascending(ids) {
            PrependAscending(ids[0], rest);
          }
        }
        [ids[0]] + rest
      else rest
  }

  /** `.withIndex("by_tokenIdentifier", …).unique()`: no row, the one
      row, or an error when more than one row matches. */
  function FindByToken(t: Table, token: string): (r: Result<Option<Id>, Error>)
    ensures r.Success? && r.value.Some? ==>
              r.value.value in t.rows && t.rows[r.value.value].tokenIdentifier == token
    ensures r.Failure? ==> r.error == NotUnique && !UniqueTokens(t)
    ensures IdsFresh(t) ==> (r == Success(None) <==> !HasToken(t, token))
    ensures Valid(t) ==> r.Success?
  {
    var m := Matching(t, IdsFrom(t.rows, 0, t.nextId), token);
    if |m| == 0 then Success(None)
    else if |m| == 1 then Success(Some(m[0]))
    else
      assert m[0] != m[1];
      Failure(NotUnique)
  }

  /** The row of `token` in a valid table, if any. */
  lemma FindInValid(t: Table, token: string, id: Id)
    requires Valid(t)
    requires id in t.rows && t.rows[id].tokenIdentifier == token
    ensures FindByToken(t, token) == Success(Some(id))
  {
  }

  function Insert(t: Table, u: User): (r: (Table, Id))
    ensures r.1 == t.nextId && r.0.nextId == t.nextId + 1
    ensures r.0.rows == t.rows[r.1 := u]
  {
    (Table(t.rows[t.nextId := u], t.nextId + 1), t.nextId)
  }

  function Patch(t: Table, id: Id, u: User): Table
    requires id in t.rows
  {
    t.(rows := t.rows[id := u])
  }

  /** `createUser` (convex/users.ts:4-40): an upsert.  An existing row
      for the token is overwritten in place and keeps its id; otherwise
      one row is inserted.  Either way the row holds the given profile
      and is online. */
  function CreateUser(t: Table, token: string, email: string, name: string, image: string)
    : (r: Result<(Table, Id), Error>)
    ensures Valid(t) ==> r.Success?
    ensures r.Success? ==>
              var (t', id) := r.value;
              && id in t'.rows
              && t'.rows[id] == User(token, email, name, image, true)
              && (forall k :: k != id ==> (k in t'.rows <==> k in t.rows))
              && (forall k :: k != id && k in t.rows ==> t'.rows[k] == t.rows[k])
    ensures r.Success? && IdsFresh(t) && HasToken(t, token) ==>
              r.value.1 in t.rows && r.value.0.rows.Keys == t.rows.Keys && r.value.0.nextId == t.nextId
    ensures r.Success? && IdsFresh(t) && !HasToken(t, token) ==>
              r.value.1 == t.nextId && r.value.0.rows.Keys == t.rows.Keys + {t.nextId}
  {
    var found :- FindByToken(t, token);
    match found
    case Some(id) => Success((Patch(t, id, User(token, email, name, image, true)), id))
    case None => Success(Insert(t, User(token, email, name, image, true)))
  }

  /** `updateUser` (convex/users.ts:42-61): replaces the image of an
      existing row and fails with "User not found" otherwise. */
  function UpdateUser(t: Table, token: string, image: string): (r: Result<Table, Error>)
    ensures Valid(t) && !HasToken(t, token) ==> r == Failure(UserNotFound)
    ensures Valid(t) && HasToken(t, token) ==> r.Success?
    ensures r.Success? && Valid(t) ==>
              && r.value.rows.Keys == t.rows.Keys && r.value.nextId == t.nextId
              && forall k :: k in t.rows ==>
                   r.value.rows[k] == (if t.rows[k].tokenIdentifier == token
                                       then t.rows[k].(image := image) else t.rows[k])
  {
    var found :- FindByToken(t, token);
    match found
    case None => Failure(UserNotFound)
    case Some(id) => Success(Patch(t, id, t.rows[id].(image := image)))
  }

  /** `setUserOnline` (convex/users.ts:63-87): marks an existing row
      online, or inserts an online guest row for an unknown user. */
  function SetUserOnline(t: Table, token: string): (r: Result<Table, Error>)
    ensures Valid(t) ==> r.Success?
    ensures r.Success? && Valid(t) && HasToken(t, token) ==>
              && r.value.rows.Keys == t.rows.Keys && r.value.nextId == t.nextId
              && forall k :: k in t.rows ==>
                   r.value.rows[k] == (if t.rows[k].tokenIdentifier == token
                                       then t.rows[k].(isOnline := true) else t.rows[k])
    ensures r.Success? && IdsFresh(t) && !HasToken(t, token) ==>
              && r.value.rows == t.rows[t.nextId := User(token, GuestEmail, GuestName, GuestImage, true)]
              && r.value.nextId == t.nextId + 1
  {
    var found :- FindByToken(t, token);
    match found
    case None => Success(Insert(t, User(token, GuestEmail, GuestName, GuestImage, true)).0)
    case Some(id) => Success(Patch(t, id, t.rows[id].(isOnline := true)))
  }

  /** `setUserOffline` (convex/users.ts:89-109): marks an existing row
      offline; for an unknown user it does nothing and does not fail. */
  function SetUserOffline(t: Table, token: string): (r: Result<Table, Error>)
    ensures Valid(t) ==> r.Success?
    ensures r.Success? && IdsFresh(t) && !HasToken(t, token) ==> r.value == t
    ensures r.Success? && Valid(t) ==>
              && r.value.rows.Keys == t.rows.Keys && r.value.nextId == t.nextId
              && forall k :: k in t.rows ==>
                   r.value.rows[k] == (if t.rows[k].tokenIdentifier == token
                                       then t.rows[k].(isOnline := false) else t.rows[k])
  {
    var found :- FindByToken(t, token);
    match found
    case None => Success(t)
    case Some(id) => Success(Patch(t, id, t.rows[id].(isOnline := false)))
  }

  /** The rows of `users` whose token differs from `token`, in order. */
  function Others(users: seq<User>, token: string): (r: seq<User>)
    ensures forall k :: 0 <= k < |r| ==> r[k].tokenIdentifier != token && r[k] in users
    ensures forall k :: 0 <= k < |users| && users[k].tokenIdentifier != token ==> users[k] in r
    ensures |r| <= |users|
  {
    if |users| == 0 then []
    else
      var rest := Others(users[1..], token);
      if users[0].tokenIdentifier != token then [users[0]] + rest else rest
  }

  /** `filter` works element by element: it keeps the order of what it
      keeps, and each element once for each time it occurs. */
  lemma {:induction false} OthersConcat(a: seq<User>, b: seq<User>, token: string)
    ensures Others(a + b, token) == Others(a, token) + Others(b, token)
    decreases |a|
  {
    if |a| == 0 {
      assert a + b == b;
    } else {
      assert (a + b)[0] == a[0] && (a + b)[1..] == a[1..] + b;
      OthersConcat(a[1..], b, token);
    }
  }

  lemma OthersSingle(u: User, token: string)
    ensures Others([u], token) == if u.tokenIdentifier != token then [u] else []
  {
    assert [u][1..] == [];
  }

  /** The ids among `ids` whose row does not carry `token`, in order. */
  function Excluding(t: Table, ids: seq<Id>, token: string): (x: seq<Id>)
    requires forall k :: 0 <= k < |ids| ==> ids[k] in t.rows
    ensures forall k :: 0 <= k < |x| ==> x[k] in ids && t.rows[x[k]].tokenIdentifier != token
    ensures forall k :: 0 <= k < |ids| && t.rows[ids[k]].tokenIdentifier != token ==> ids[k] in x
    ensures Ascending(ids) ==> Ascending(x)
  {
    if |ids| == 0 then []
    else
      var rest := Excluding(t, ids[1..], token);
      assert Ascending(ids) ==> Ascending(rest) && forall k :: 0 <= k < |rest| ==> ids[0] < rest[k] by {
        if Ascending(ids) {
          AscendingTail(ids);
        }
      }
      if t.rows[ids[0]].tokenIdentifier != token then
        assert Ascending(ids) ==> Ascending([ids[0]] + rest) by {
          if Ascending(ids) {
            PrependAscending(ids[0], rest);
          }
        }
        [ids[0]] + rest
      else rest
  }

  /** Filtering the rows of `ids` is taking the rows of the filtered ids. */
  lemma {:induction false} OthersOfRows(t: Table, ids: seq<Id>, token: string)
    requires forall k :: 0 <= k < |ids| ==> ids[k] in t.rows
    ensures Others(RowsOf(t, ids), token) == RowsOf(t, Excluding(t, ids, token))
    decreases |ids|
  {
    if |ids| > 0 {
      var rows, tail := RowsOf(t, ids), RowsOf(t, ids[1..]);
      var x := Excluding(t, ids[1..], token);
      OthersOfRows(t, ids[1..], token);
      assert rows[0] == t.rows[ids[0]];
      assert rows[1..] == tail;
      if t.rows[ids[0]].tokenIdentifier != token {
        assert Others(rows, token) == [rows[0]] + Others(tail, token);
        assert Excluding(t, ids, token) == [ids[0]] + x;
        RowsOfCons(t, ids[0], x);
      } else {
        assert Others(rows, token) == Others(tail, token);
        assert Excluding(t, ids, token) == x;
      }
    }
  }

  lemma RowsOfCons(t: Table, id: Id, ids: seq<Id>)
    requires id in t.rows && forall k :: 0 <= k < |ids| ==> ids[k] in t.rows
    ensures RowsOf(t, [id] + ids) == [t.rows[id]] + RowsOf(t, ids)
  {
    var s := [id] + ids;
    assert forall k :: 0 <= k < |ids| ==> s[k + 1] == ids[k];
  }

  /** The filtered ids are exactly the issued ids whose row does not carry
      `token`. */
  lemma ExcludingExact(t: Table, token: string)
    ensures var ids := Excluding(t, IdsFrom(t.rows, 0, t.nextId), token);
      && Ascending(ids)
      && forall id :: id in ids <==> id in t.rows && id < t.nextId && t.rows[id].tokenIdentifier != token
  {
    var all := IdsFrom(t.rows, 0, t.nextId);
    var ids := Excluding(t, all, token);
    forall id | id in t.rows && id < t.nextId && t.rows[id].tokenIdentifier != token
      ensures id in ids
    {
      var k :| 0 <= k < |all| && all[k] == id;
    }
  }

  /** `getUsers` (convex/users.ts:111-122): every row except the
      caller's, in creation order; "Unauthorized" without an identity. */
  function GetUsers(t: Table, identity: Option<string>): (r: Result<seq<User>, Error>)
    ensures identity.None? <==> r == Failure(Unauthorized)
    ensures r.Success? ==>
              var ids := Excluding(t, IdsFrom(t.rows, 0, t.nextId), identity.value);
              && Ascending(ids)
              && (forall id :: id in ids <==> id in t.rows && id < t.nextId && t.rows[id].tokenIdentifier != identity.value)
              && r.value == RowsOf(t, ids)
    ensures r.Success? ==>
              && (forall k :: 0 <= k < |r.value| ==> r.value[k].tokenIdentifier != identity.value)
              && (forall id :: id in t.rows && id < t.nextId && t.rows[id].tokenIdentifier != identity.value
                    ==> t.rows[id] in r.value)
              && (forall u :: u in r.value ==> u in t.rows.Values)
  {
    match identity
    case None => Failure(Unauthorized)
    case Some(caller) =>
      var all := IdsFrom(t.rows, 0, t.nextId);
      assert Rows(t) == RowsOf(t, all);
      OthersOfRows(t, all, caller);
      ExcludingExact(t, caller);
      Success(Others(Rows(t), caller))
  }

  /** `getMe` (convex/users.ts:124-143): the caller's own row, with
      "Unauthorized" without an identity and "User not found" without a
      row. */
  function GetMe(t: Table, identity: Option<string>): (r: Result<User, Error>)
    ensures identity.None? <==> r == Failure(Unauthorized)
    ensures r.Success? ==> r.value.tokenIdentifier == identity.value && r.value in t.rows.Values
    ensures Valid(t) && identity.Some? ==>
              (r == Failure(UserNotFound) <==> !HasToken(t, identity.value))
  {
    match identity
    case None => Failure(Unauthorized)
    case Some(caller) =>
      var found :- FindByToken(t, caller);
      match found
      case None => Failure(UserNotFound)
      case Some(id) => Success(t.rows[id])
  }
}
