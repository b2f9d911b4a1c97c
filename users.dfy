/** The user table: every account is stored twice, by id and by username,
    and a username can be registered only once. Password hashing and
    comparison belong to a foreign library; they are passed in as functions,
    and the new user's id is supplied by the caller. */
module Users {
  import opened Wrappers
  import opened Keys

  datatype User = User(id: string, username: string, password: string)

  /** "Username already exists" and "Invalid credentials". */
  datatype UserError = UsernameExists | InvalidCredentials

  /** The two indexes hold the same users: each user is filed under its own
      id in `users` and under its own username in `byName`. */
  predicate Consistent(users: map<string, User>, byName: map<string, User>)
  {
    (forall id :: id in users ==>
       users[id].id == id && users[id].username in byName && byName[users[id].username] == users[id]) &&
    (forall name :: name in byName ==>
       byName[name].username == name && byName[name].id in users && users[byName[name].id] == byName[name])
  }

  /** Registering a user under an unused id and an unused username keeps the
      indexes consistent. */
  lemma InsertKeepsConsistent(users: map<string, User>, byName: map<string, User>, u: User)
    requires Consistent(users, byName)
    requires u.id !in users && u.username !in byName
    ensures Consistent(users[u.id := u], byName[u.username := u])
  {
  }

  /** No two accounts share a username. */
  lemma UsernamesUnique(users: map<string, User>, byName: map<string, User>, a: string, b: string)
    requires Consistent(users, byName)
    requires a in users && b in users && users[a].username == users[b].username
    ensures a == b
  {
  }

  /** Dropping a user from both indexes keeps them consistent. */
  lemma RemoveKeepsConsistent(users: map<string, User>, byName: map<string, User>, id: string)
    requires Consistent(users, byName) && id in users
    ensures Consistent(users - {id}, byName - {users[id].username})
  {
  }

  /** The indexes are equally large: one entry per user in each. */
  lemma {:induction false} ConsistentSameSize(users: map<string, User>, byName: map<string, User>)
    requires Consistent(users, byName)
    ensures |users| == |byName|
    decreases |users|
  {
    if users == map[] {
      // every username would lead to an id in the empty map
      assert forall name :: name in byName ==> byName[name].id in users;
      assert byName.Keys == {};
    } else {
      var id :| id in users;
      var name := users[id].username;
      RemoveKeepsConsistent(users, byName, id);
      ConsistentSameSize(users - {id}, byName - {name});
      assert users.Keys == (users - {id}).Keys + {id};
      assert byName.Keys == (byName - {name}).Keys + {name};
    }
  }

  class UserService {
    var users: map<string, User>
    var usersByUsername: map<string, User>
    /** The ids of `users` in insertion order. */
    var order: seq<string>

    ghost predicate Valid()
      reads this
    {
      Consistent(users, usersByUsername) &&
      NoDup(order) &&
      (forall id :: id in order <==> id in users)
    }

    constructor ()
      ensures Valid() && users == map[] && usersByUsername == map[] && order == []
    {
      users := map[];
      usersByUsername := map[];
      order := [];
    }

    /** Registers `username` with the hash of `password` under the fresh id
        `userId`, unless the username is taken. */
    method CreateUser(username: string, password: string, hash: string -> string, userId: string)
      returns (r: Result<User, UserError>)
      requires Valid() && userId !in users
      modifies this
      ensures Valid()
      ensures username in old(usersByUsername) ==>
        r == Failure(UsernameExists) &&
        users == old(users) && usersByUsername == old(usersByUsername) && order == old(order)
      ensures username !in old(usersByUsername) ==>
        r == Success(User(userId, username, hash(password))) &&
        users == old(users)[userId := r.value] &&
        usersByUsername == old(usersByUsername)[username := r.value] &&
        order == old(order) + [userId]
    {
      if username in usersByUsername {
        return Failure(UsernameExists);
      }
      var hashedPassword := hash(password);
      var user := User(userId, username, hashedPassword);
      InsertKeepsConsistent(users, usersByUsername, user);
      users := users[userId := user];
      usersByUsername := usersByUsername[username := user];
      order := order + [userId];
      r := Success(user);
    }

    /** The stored user when `username` is registered and `matches` accepts
        `password` against the stored hash; one and the same error otherwise. */
    function AuthenticateUser(username: string, password: string, matches: (string, string) -> bool)
      : (r: Result<User, UserError>)
      reads this
      requires Valid()
      ensures r.Failure? ==> r.error == InvalidCredentials
      ensures r.Success? <==>
        username in usersByUsername && matches(password, usersByUsername[username].password)
      ensures r.Success? ==>
        r.value.username == username && r.value.id in users && users[r.value.id] == r.value
    {
      if username !in usersByUsername then Failure(InvalidCredentials)
      else
        var user := usersByUsername[username];
        if !matches(password, user.password) then Failure(InvalidCredentials)
        else Success(user)
    }

    function GetUserById(userId: string): (r: Option<User>)
      reads this
      requires Valid()
      ensures r.Some? <==> userId in users
      ensures r.Some? ==> r.value.id == userId && r.value.username in usersByUsername && usersByUsername[r.value.username] == r.value
    {
      if userId in users then Some(users[userId]) else None
    }

    function GetUserByUsername(username: string): (r: Option<User>)
      reads this
      requires Valid()
      ensures r.Some? <==> username in usersByUsername
      ensures r.Some? ==> r.value.username == username && r.value.id in users && users[r.value.id] == r.value
    {
      if username in usersByUsername then Some(usersByUsername[username]) else None
    }

    /** Every user once, in registration order. */
    function GetAllUsers(): (r: seq<User>)
      reads this
      requires Valid()
      ensures |r| == |order| == |users| == |usersByUsername|
      ensures forall i :: 0 <= i < |r| ==> r[i] == users[order[i]] && r[i].id == order[i]
    {
      OrderCoversMap(order, users);
      ConsistentSameSize(users, usersByUsername);
      ValuesAt(order, users)
    }
  }
}
