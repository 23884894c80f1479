/**
 * The user store of api/app/users/repository.py. Users live in one table keyed
 * by id; an admin and a player share the common columns and a player also
 * carries its group and payment. The repository keeps e-mail addresses unique
 * by looking the address up before every insert.
 */
module Users {
  import opened Wrappers
  import opened Rows

  /** The joined-table subtype of a user: an admin, or a player with its own columns. */
  datatype Role =
    | Admin
    | Player(groupId: Option<nat>, paymentAmountIls: Option<real>)

  datatype User = User(email: string, passwordHash: string, username: Option<string>, role: Role)

  /** The requested `user_type`; any value other than ADMIN and PLAYER is refused. */
  datatype UserType = AdminType | PlayerType | OtherType(name: string)

  datatype UserError = UserAlreadyExists | InvalidUserType | UserNotFound

  /** The repository's invariant: ids are below the counter and no two users share an e-mail. */
  predicate Registered(us: map<nat, User>, bound: nat)
  {
    && (forall i :: i in us ==> i < bound)
    && (forall i, j :: i in us && j in us && us[i].email == us[j].email ==> i == j)
  }

  /** The row filter "e-mail is exactly `email`". */
  function HasEmail(email: string): (nat, User) -> bool
  {
    (k: nat, u: User) => u.email == email
  }

  /** The row filter of `get_all_players`: rows of the player subtype. */
  function IsPlayer(): (nat, User) -> bool
  {
    (k: nat, u: User) => u.role.Player?
  }

  /** `get_user_by_email`: the first user (by id) with that e-mail, if any. */
  function UserWithEmail(us: map<nat, User>, bound: nat, email: string): (r: Option<nat>)
    ensures r.Some? ==> r.value in us && us[r.value].email == email
    ensures r.None? ==> forall i :: i in us && i < bound ==> us[i].email != email
  {
    var ids := IdsWhere(us, bound, HasEmail(email));
    if |ids| == 0 then None else Some(ids[0])
  }

  /** Under unique e-mails, the lookup by e-mail finds the one user carrying it. */
  lemma EmailFindsOnly(us: map<nat, User>, bound: nat, email: string, id: nat)
    requires Registered(us, bound)
    requires id in us && us[id].email == email
    ensures UserWithEmail(us, bound, email) == Some(id)
  {
    assert HasEmail(email)(id, us[id]);
  }

  /**
   * The row `create_user` builds: ADMIN gives an admin and ignores the group,
   * PLAYER gives a player in `groupId` with no payment yet, anything else is refused.
   */
  function NewUser(email: string, passwordHash: string, userType: UserType, username: Option<string>,
                   groupId: Option<nat>): (r: Result<User, UserError>)
    ensures r.Ok? <==> !userType.OtherType?
    ensures r.Err? ==> r.error == InvalidUserType
    ensures r.Ok? ==> r.value.email == email && r.value.passwordHash == passwordHash && r.value.username == username
    ensures userType.AdminType? ==> r.Ok? && r.value.role == Admin
    ensures userType.PlayerType? ==> r.Ok? && r.value.role == Player(groupId, None)
  {
    match userType
    case AdminType => Ok(User(email, passwordHash, username, Admin))
    case PlayerType => Ok(User(email, passwordHash, username, Player(groupId, None)))
    case OtherType(_) => Err(InvalidUserType)
  }

  /** Storing a user with a fresh e-mail under the next id keeps the invariant. */
  lemma AddUserKeeps(us: map<nat, User>, bound: nat, u: User)
    requires Registered(us, bound)
    requires forall i :: i in us ==> us[i].email != u.email
    ensures Registered(us[bound := u], bound + 1)
  {
  }

  /** Rewriting a user without touching its e-mail keeps the invariant. */
  lemma ReplaceUserKeeps(us: map<nat, User>, bound: nat, id: nat, u: User)
    requires Registered(us, bound)
    requires id in us && u.email == us[id].email
    ensures Registered(us[id := u], bound)
  {
  }

  /** The player `u` moved to group `groupId`. */
  function WithGroup(u: User, groupId: nat): (v: User)
    requires u.role.Player?
    ensures v.role.Player? && v.role.groupId == Some(groupId)
    ensures v.email == u.email && v.passwordHash == u.passwordHash && v.username == u.username
    ensures v.role.paymentAmountIls == u.role.paymentAmountIls
  {
    u.(role := u.role.(groupId := Some(groupId)))
  }

  /** The player `u` with its payment set to `amount`. */
  function WithPayment(u: User, amount: real): (v: User)
    requires u.role.Player?
    ensures v.role.Player? && v.role.paymentAmountIls == Some(amount)
    ensures v.email == u.email && v.passwordHash == u.passwordHash && v.username == u.username
    ensures v.role.groupId == u.role.groupId
  {
    u.(role := u.role.(paymentAmountIls := Some(amount)))
  }

  class UserStore {
    var users: map<nat, User>
    var nextId: nat

    predicate Valid()
      reads this
    {
      Registered(users, nextId)
    }

    constructor ()
      ensures Valid() && users == map[]
    {
      users := map[];
      nextId := 0;
    }

    /**
     * Create an admin or a player, refusing an e-mail that is already
     * registered before looking at the requested type.
     */
    method CreateUser(email: string, passwordHash: string, userType: UserType, username: Option<string>,
                      groupId: Option<nat>) returns (r: Result<nat, UserError>)
      requires Valid()
      modifies this
      ensures Valid()
      ensures old(UserWithEmail(users, nextId, email)).Some? ==> r == Err(UserAlreadyExists)
      ensures old(UserWithEmail(users, nextId, email)).None? && userType.OtherType? ==> r == Err(InvalidUserType)
      ensures r.Ok? <==> old(UserWithEmail(users, nextId, email)).None? && !userType.OtherType?
      ensures r.Err? ==> users == old(users) && nextId == old(nextId)
      ensures r.Ok? ==>
                && r.value == old(nextId) && r.value !in old(users)
                && users == old(users)[r.value := NewUser(email, passwordHash, userType, username, groupId).value]
                && UserWithEmail(users, nextId, email) == Some(r.value)
    {
      if UserWithEmail(users, nextId, email).Some? {
        return Err(UserAlreadyExists);
      }
      var u := NewUser(email, passwordHash, userType, username, groupId);
      if u.Err? {
        return Err(u.error);
      }
      var id := nextId;
      AddUserKeeps(users, nextId, u.value);
      EmailFindsOnly(users[id := u.value], nextId + 1, email, id);
      users := users[id := u.value];
      nextId := nextId + 1;
      r := Ok(id);
    }

    /** Assign a player to a group; an id that is not a player's is not found. */
    method UpdatePlayerGroup(playerId: nat, groupId: nat) returns (r: Result<User, UserError>)
      requires Valid()
      modifies this
      ensures Valid()
      ensures r.Ok? <==> playerId in old(users) && old(users)[playerId].role.Player?
      ensures r.Err? ==> r.error == UserNotFound && users == old(users)
      ensures r.Ok? ==> r.value == WithGroup(old(users)[playerId], groupId) && users == old(users)[playerId := r.value]
      ensures nextId == old(nextId)
    {
      if playerId !in users || !users[playerId].role.Player? {
        return Err(UserNotFound);
      }
      var u := WithGroup(users[playerId], groupId);
      ReplaceUserKeeps(users, nextId, playerId, u);
      users := users[playerId := u];
      r := Ok(u);
    }

    /** Record a player's payment; an id that is not a player's is not found. */
    method UpdatePlayerPayment(playerId: nat, amount: real) returns (r: Result<User, UserError>)
      requires Valid()
      modifies this
      ensures Valid()
      ensures r.Ok? <==> playerId in old(users) && old(users)[playerId].role.Player?
      ensures r.Err? ==> r.error == UserNotFound && users == old(users)
      ensures r.Ok? ==> r.value == WithPayment(old(users)[playerId], amount) && users == old(users)[playerId := r.value]
      ensures nextId == old(nextId)
    {
      if playerId !in users || !users[playerId].role.Player? {
        return Err(UserNotFound);
      }
      var u := WithPayment(users[playerId], amount);
      ReplaceUserKeeps(users, nextId, playerId, u);
      users := users[playerId := u];
      r := Ok(u);
    }

    /** Delete any user by id. */
    method DeleteUser(id: nat) returns (r: Outcome<UserError>)
      requires Valid()
      modifies this
      ensures Valid()
      ensures r.Pass? <==> id in old(users)
      ensures r.Fail? ==> r.error == UserNotFound && users == old(users)
      ensures r.Pass? ==> users == old(users) - {id}
      ensures nextId == old(nextId)
    {
      if id !in users {
        return Fail(UserNotFound);
      }
      users := users - {id};
      r := Pass;
    }

    /** One page of all users, by increasing id. */
    function GetAllUsers(skip: nat, limit: nat): (rows: seq<(nat, User)>)
      reads this
      ensures |rows| <= limit
      ensures forall i :: 0 <= i < |rows| ==>
                && skip + i < |AllIds(users, nextId)| && rows[i].0 == AllIds(users, nextId)[skip + i]
                && rows[i].0 in users && rows[i].1 == users[rows[i].0]
      ensures Valid() ==> |rows| == if skip < |users| then Min(limit, |users| - skip) else 0
    {
      AllIdsCount(users, nextId);
      RowsAt(users, Page(AllIds(users, nextId), skip, limit))
    }

    /** One page of the players only, by increasing id. */
    function GetAllPlayers(skip: nat, limit: nat): (rows: seq<(nat, User)>)
      reads this
      ensures |rows| <= limit
      ensures var ids := IdsWhere(users, nextId, IsPlayer());
              |rows| == (if skip < |ids| then Min(limit, |ids| - skip) else 0)
              && forall i :: 0 <= i < |rows| ==> skip + i < |ids| && rows[i].0 == ids[skip + i]
      ensures forall i :: 0 <= i < |rows| ==> rows[i].0 in users && rows[i].1 == users[rows[i].0] && rows[i].1.role.Player?
      ensures forall i, j :: 0 <= i < j < |rows| ==> rows[i].0 < rows[j].0
    {
      RowsAt(users, Page(IdsWhere(users, nextId, IsPlayer()), skip, limit))
    }

    /** With no offset and a large enough limit, every player is listed. */
    lemma PlayersAllListed(limit: nat)
      requires Valid() && limit >= |users|
      ensures forall p :: p in users && users[p].role.Player? ==> (p, users[p]) in GetAllPlayers(0, limit)
    {
      var ids := IdsWhere(users, nextId, IsPlayer());
      FilterNoLarger(users, nextId, IsPlayer());
      var rows := GetAllPlayers(0, limit);
      assert |rows| == |ids|;
      forall p | p in users && users[p].role.Player?
        ensures (p, users[p]) in rows
      {
        assert IsPlayer()(p, users[p]);
        var i :| 0 <= i < |ids| && ids[i] == p;
        assert rows[i] == (p, users[p]);
      }
    }
  }

  /** Filtering a table returns no more ids than it has rows. */
  lemma FilterNoLarger<T>(m: map<nat, T>, bound: nat, p: (nat, T) -> bool)
    ensures |IdsWhere(m, bound, p)| <= |m|
  {
    IdsWhereCount(m, bound, p);
    SubsetCardinality(Matching(m, bound, p), m.Keys);
  }

  /** A subset is no larger than its superset. */
  lemma SubsetCardinality(a: set<nat>, b: set<nat>)
    requires a <= b
    ensures |a| <= |b|
  {
    if a != {} {
      var x :| x in a;
      SubsetCardinality(a - {x}, b - {x});
    }
  }
}
