/** The add-user form: the username is lower-cased, both fields are required,
    the username must be new, and only a hash of the password is stored. */
module AddUser {
  import opened Text

  /** A document of the `users` collection. */
  datatype User = User(username: string, passwordHash: string, isAdmin: bool)

  /** One submission of the form. `salt` stands for the value the hashing
      library draws at random. */
  datatype Request = Request(rawUsername: string, password: string, isAdmin: bool, salt: string)

  datatype AddUserResult = MissingField | UsernameTaken | UserAdded

  predicate UsernameExists(users: seq<User>, username: string) {
    exists k :: 0 <= k < |users| && users[k].username == username
  }

  predicate UniqueUsernames(users: seq<User>) {
    forall i, j :: 0 <= i < j < |users| ==> users[i].username != users[j].username
  }

  predicate LowerCaseUsernames(users: seq<User>) {
    forall k :: 0 <= k < |users| ==> Lower(users[k].username) == users[k].username
  }

  function Outcome(users: seq<User>, r: Request): AddUserResult {
    var username := Lower(r.rawUsername);
    if username == "" || r.password == "" then MissingField
    else if UsernameExists(users, username) then UsernameTaken
    else UserAdded
  }

  /** The collection after one submission; `hashpw` is the one-way hash. */
  function Step(users: seq<User>, r: Request, hashpw: (string, string) -> string): seq<User> {
    if Outcome(users, r) == UserAdded
    then users + [User(Lower(r.rawUsername), hashpw(r.password, r.salt), r.isAdmin)]
    else users
  }

  function RunRequests(users: seq<User>, rs: seq<Request>, hashpw: (string, string) -> string): seq<User>
    decreases |rs|
  {
    if rs == [] then users else RunRequests(Step(users, rs[0], hashpw), rs[1..], hashpw)
  }

  // ------------------------------------------------------------ properties

  /** A submission keeps usernames unique and lower-case. */
  lemma StepKeepsInvariant(users: seq<User>, r: Request, hashpw: (string, string) -> string)
    requires UniqueUsernames(users) && LowerCaseUsernames(users)
    ensures UniqueUsernames(Step(users, r, hashpw)) && LowerCaseUsernames(Step(users, r, hashpw))
  {
    if Outcome(users, r) == UserAdded {
      var after := Step(users, r, hashpw);
      LowerIdempotent(r.rawUsername);
      forall i, j | 0 <= i < j < |after| ensures after[i].username != after[j].username {
        if j == |users| {
          assert after[i] == users[i];
        }
      }
    }
  }

  /** Users added one after the other have distinct, lower-case usernames. */
  lemma {:induction false} RunKeepsInvariant(users: seq<User>, rs: seq<Request>, hashpw: (string, string) -> string)
    requires UniqueUsernames(users) && LowerCaseUsernames(users)
    ensures UniqueUsernames(RunRequests(users, rs, hashpw)) && LowerCaseUsernames(RunRequests(users, rs, hashpw))
    decreases |rs|
  {
    if rs != [] {
      StepKeepsInvariant(users, rs[0], hashpw);
      RunKeepsInvariant(Step(users, rs[0], hashpw), rs[1..], hashpw);
    }
  }

  /** Usernames that differ only in ASCII case are the same account: once one
      is stored, the other is rejected. */
  lemma CaseInsensitiveUniqueness(users: seq<User>, r: Request, stored: nat, hashpw: (string, string) -> string)
    requires stored < |users|
    requires users[stored].username == Lower(r.rawUsername)
    requires r.rawUsername != "" && r.password != ""
    ensures Outcome(users, r) == UsernameTaken && Step(users, r, hashpw) == users
  {
    LowerEmpty(r.rawUsername);
  }

  // ------------------------------------------------------------ the page

  /** The `users` collection. */
  class UserRegistry {
    var users: seq<User>

    constructor (users: seq<User>)
      ensures this.users == users
    {
      this.users := users;
    }

    /** The "Add User" button. */
    method AddUser(rawUsername: string, password: string, isAdmin: bool, salt: string,
                   hashpw: (string, string) -> string)
      returns (result: AddUserResult)
      modifies this
      ensures result == MissingField <==> rawUsername == "" || password == ""
      ensures result == UsernameTaken <==>
                rawUsername != "" && password != "" && UsernameExists(old(users), Lower(rawUsername))
      ensures result != UserAdded ==> users == old(users)
      ensures result == UserAdded ==>
                users == old(users) + [User(Lower(rawUsername), hashpw(password, salt), isAdmin)]
      ensures users == Step(old(users), Request(rawUsername, password, isAdmin, salt), hashpw)
      ensures old(UniqueUsernames(users) && LowerCaseUsernames(users)) ==>
                UniqueUsernames(users) && LowerCaseUsernames(users)
    {
      ghost var before := users;
      var username := Lower(rawUsername);
      LowerEmpty(rawUsername);
      if username == "" || password == "" {
        result := MissingField;
      } else if UsernameExists(users, username) {
        result := UsernameTaken;
      } else {
        var hashed := hashpw(password, salt);
        users := users + [User(username, hashed, isAdmin)];
        result := UserAdded;
      }
      if UniqueUsernames(before) && LowerCaseUsernames(before) {
        StepKeepsInvariant(before, Request(rawUsername, password, isAdmin, salt), hashpw);
      }
    }
  }
}
