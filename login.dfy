/**
 * The user store of 08-cli-login. The hash function (SHA-512 in the
 * program) is the parameter `hash`, and what `prompt` reads from the
 * terminal arrives as the `username`, `password` and `line` parameters.
 */
module Login {
  import opened Wrappers

  /** A stored account: the name and the hash of the password, never the password. */
  datatype User = User(username: string, hash: string)

  /** Some stored user has this name. */
  predicate HasUser(users: seq<User>, username: string)
  {
    exists k :: 0 <= k < |users| && users[k].username == username
  }

  /** No two stored users share a name. */
  predicate DistinctNames(users: seq<User>)
  {
    forall i, j :: 0 <= i < j < |users| ==> users[i].username != users[j].username
  }

  /** The stored users after adding `username` with password hash `digest`. */
  function WithUser(users: seq<User>, username: string, digest: string): (r: seq<User>)
    ensures HasUser(users, username) ==> r == users
    ensures !HasUser(users, username) ==> |r| == |users| + 1 && r[..|users|] == users && r[|users|] == User(username, digest)
  {
    if HasUser(users, username) then users else users + [User(username, digest)]
  }

  /** Adding a user keeps the names distinct. */
  lemma WithUserKeepsNamesDistinct(users: seq<User>, username: string, digest: string)
    requires DistinctNames(users)
    ensures DistinctNames(WithUser(users, username, digest))
  {
  }

  /** Logging in succeeds when some stored user has the name and the hash of the password. */
  predicate Accepts(users: seq<User>, username: string, password: string, hash: string -> string)
  {
    exists k :: 0 <= k < |users| && users[k].username == username && users[k].hash == hash(password)
  }

  /** A newly added user can log in with the password they chose, and nobody else's login changes. */
  lemma AddedUserCanLogIn(users: seq<User>, username: string, password: string, hash: string -> string)
    requires !HasUser(users, username)
    ensures Accepts(WithUser(users, username, hash(password)), username, password, hash)
    ensures forall name, pw :: name != username ==>
      (Accepts(WithUser(users, username, hash(password)), name, pw, hash) <==> Accepts(users, name, pw, hash))
  {
    var after := WithUser(users, username, hash(password));
    assert after[|users|] == User(username, hash(password));
    forall name, pw | name != username
      ensures Accepts(after, name, pw, hash) <==> Accepts(users, name, pw, hash)
    {
      if Accepts(after, name, pw, hash) {
        var k :| 0 <= k < |after| && after[k].username == name && after[k].hash == hash(pw);
        assert k < |users| && users[k] == after[k];
      }
      if Accepts(users, name, pw, hash) {
        var k :| 0 <= k < |users| && users[k].username == name && users[k].hash == hash(pw);
        assert after[k] == users[k];
      }
    }
  }

  /** Adding a name that is already taken changes no login. */
  lemma TakenNameChangesNothing(users: seq<User>, username: string, password: string, hash: string -> string)
    requires HasUser(users, username)
    ensures forall name, pw :: Accepts(WithUser(users, username, hash(password)), name, pw, hash) <==> Accepts(users, name, pw, hash)
  {
  }

  /** The user list the program keeps in memory. */
  class UserDb {
    var users: seq<User>

    constructor (users: seq<User>)
      ensures this.users == users
    {
      this.users := users;
    }

    /**
     * `add_user`: a taken name leaves the list as it is; otherwise the user
     * is appended with the hash of the password. `added` tells which of the
     * two messages the program prints.
     */
    method AddUser(username: string, password: string, hash: string -> string) returns (added: bool)
      modifies this
      ensures added <==> !HasUser(old(users), username)
      ensures users == WithUser(old(users), username, hash(password))
    {
      var taken := false;
      var k := 0;
      while k < |users|
        invariant 0 <= k <= |users|
        invariant taken <==> HasUser(users[..k], username)
      {
        if users[k].username == username {
          taken := true;
        }
        assert users[..k + 1] == users[..k] + [users[k]];
        k := k + 1;
      }
      assert users[..k] == users;
      if taken {
        return false;
      }
      users := users + [User(username, hash(password))];
      return true;
    }

    /** `login`: scans the users in order and stops at the first one that matches. */
    method Login(username: string, password: string, hash: string -> string) returns (success: bool)
      ensures success <==> Accepts(users, username, password, hash)
    {
      var digest := hash(password);
      var k := 0;
      while k < |users|
        invariant 0 <= k <= |users|
        invariant !Accepts(users[..k], username, password, hash)
      {
        if users[k].username == username && digest == users[k].hash {
          return true;
        }
        assert users[..k + 1] == users[..k] + [users[k]];
        k := k + 1;
      }
      assert users[..k] == users;
      return false;
    }
  }

  /** The actions of the main loop's prompt. */
  datatype Action = LogIn | AddUser | Quit | Invalid

  /**
   * The `match` on the first character of the entered line: `l`, `a` and
   * `q` choose their action; every other first character, and the empty
   * line, is an invalid action.
   */
  function Dispatch(line: string): (a: Action)
    ensures a == LogIn <==> |line| >= 1 && line[0] == 'l'
    ensures a == AddUser <==> |line| >= 1 && line[0] == 'a'
    ensures a == Quit <==> |line| >= 1 && line[0] == 'q'
    ensures a == Invalid <==> line == [] || line[0] !in "laq"
  {
    if line == [] then Invalid
    else if line[0] == 'l' then LogIn
    else if line[0] == 'a' then AddUser
    else if line[0] == 'q' then Quit
    else Invalid
  }

  /** The JSON values the user database file holds, as far as they matter here. */
  datatype Json =
    | JsonArray(items: seq<Json>)
    | JsonObject(members: seq<(string, Json)>)
    | JsonString(text: string)
    | JsonOther

  /**
   * `parse_users`: an array becomes one user per element, anything else is
   * `None`. What `user["username"].to_string()` yields for an element is the
   * parameter `field`.
   */
  function ParseUsers(parsed: Json, field: (Json, string) -> string): (r: Option<seq<User>>)
    ensures r.None? <==> !parsed.JsonArray?
    ensures r.Some? ==> (
      && |r.value| == |parsed.items|
      && forall k :: 0 <= k < |r.value| ==>
        r.value[k] == User(field(parsed.items[k], "username"), field(parsed.items[k], "hash")))
  {
    match parsed
    case JsonArray(items) =>
      Some(seq(|items|, k requires 0 <= k < |items| => User(field(items[k], "username"), field(items[k], "hash"))))
    case _ => None
  }

  /** The `json::object!` pushed for one user: its name and hash are read back under their keys. */
  function UserToJson(user: User): (v: Json)
    ensures StringField(v, "username") == user.username
    ensures StringField(v, "hash") == user.hash
  {
    var members := [("username", JsonString(user.username)), ("hash", JsonString(user.hash))];
    assert members[1..] == [("hash", JsonString(user.hash))];
    assert LookupString(members, "hash") == user.hash;
    JsonObject(members)
  }

  /**
   * The array `write_user_db` builds: one element per user, in order, each
   * holding that user's name and hash.
   */
  function UsersToJson(users: seq<User>): (json: Json)
    ensures json.JsonArray? && |json.items| == |users|
    ensures forall k :: 0 <= k < |users| ==>
      StringField(json.items[k], "username") == users[k].username && StringField(json.items[k], "hash") == users[k].hash
  {
    JsonArray(seq(|users|, k requires 0 <= k < |users| => UserToJson(users[k])))
  }

  /** Member lookup that reads the string stored under `key`. */
  function StringField(v: Json, key: string): string
  {
    match v
    case JsonObject(members) => LookupString(members, key)
    case _ => "null"
  }

  function LookupString(members: seq<(string, Json)>, key: string): string
  {
    if members == [] then "null"
    else if members[0].0 == key then (if members[0].1.JsonString? then members[0].1.text else "null")
    else LookupString(members[1..], key)
  }

  /** Reading back what `write_user_db` writes gives the same users. */
  lemma ParseWrittenUsers(users: seq<User>)
    ensures ParseUsers(UsersToJson(users), StringField) == Some(users)
  {
    var r := ParseUsers(UsersToJson(users), StringField);
    assert r.value == users;
  }
}
