/** The administrator login: a check of the typed username and password
    against the configured credentials, remembered in the session. */
module Login {
  import opened Wrappers
  import opened Text

  /** The configured administrator credentials. */
  datatype Credentials = Credentials(username: string, password: string)

  /** The session-state keys `logged_in` and `username`; `None` when absent. */
  datatype LoginState = LoginState(loggedIn: Option<bool>, username: Option<string>)

  /** One run of the login form: what is typed and whether the button was pressed. */
  datatype Attempt = Attempt(username: string, password: string, pressed: bool)

  predicate IsLoggedIn(s: LoginState) {
    s.loggedIn == Some(true)
  }

  /** The new session state and the returned flag. */
  function Check(s: LoginState, cfg: Credentials, a: Attempt): (LoginState, bool) {
    if IsLoggedIn(s) then (s, true)
    else if !a.pressed then (s, false)
    else if a.username == cfg.username && a.password == cfg.password then
      (LoginState(Some(true), Some(a.username)), true)
    else (s.(loggedIn := Some(false)), false)
  }

  /** The session state after runs of the form one after the other. */
  function RunAttempts(s: LoginState, cfg: Credentials, attempts: seq<Attempt>): LoginState
    decreases |attempts|
  {
    if attempts == [] then s else RunAttempts(Check(s, cfg, attempts[0]).0, cfg, attempts[1..])
  }

  // ------------------------------------------------------------ properties

  /** The check answers true exactly when the session is logged in afterwards,
      and a fresh login records exactly the configured credentials. */
  lemma CheckMeansLoggedIn(s: LoginState, cfg: Credentials, a: Attempt)
    ensures Check(s, cfg, a).1 <==> IsLoggedIn(Check(s, cfg, a).0)
    ensures !IsLoggedIn(s) && Check(s, cfg, a).1 ==>
              a.pressed && a.username == cfg.username && a.password == cfg.password
              && Check(s, cfg, a).0.username == Some(cfg.username)
  {
  }

  /** Once logged in, a session stays logged in whatever is typed later. */
  lemma {:induction false} StaysLoggedIn(s: LoginState, cfg: Credentials, attempts: seq<Attempt>)
    requires IsLoggedIn(s)
    ensures RunAttempts(s, cfg, attempts) == s
    decreases |attempts|
  {
    if attempts != [] {
      StaysLoggedIn(s, cfg, attempts[1..]);
    }
  }

  /** A session becomes logged in only through an attempt that matches the
      credentials exactly. */
  lemma {:induction false} LoginNeedsExactMatch(s: LoginState, cfg: Credentials, attempts: seq<Attempt>)
    requires !IsLoggedIn(s)
    requires IsLoggedIn(RunAttempts(s, cfg, attempts))
    ensures exists k :: 0 <= k < |attempts| && attempts[k].pressed
                        && attempts[k].username == cfg.username && attempts[k].password == cfg.password
    decreases |attempts|
  {
    var a := attempts[0];
    var next := Check(s, cfg, a).0;
    if IsLoggedIn(next) {
      assert attempts[0] == a;
    } else {
      LoginNeedsExactMatch(next, cfg, attempts[1..]);
      var k :| 0 <= k < |attempts[1..]| && attempts[1..][k].pressed
               && attempts[1..][k].username == cfg.username && attempts[1..][k].password == cfg.password;
      assert attempts[k + 1] == attempts[1..][k];
    }
  }

  /** The comparison is case-sensitive: the lower-cased form of a configured
      username with upper-case letters is rejected. */
  lemma CaseSensitive(s: LoginState, cfg: Credentials)
    requires !IsLoggedIn(s)
    requires Lower(cfg.username) != cfg.username
    ensures !Check(s, cfg, Attempt(Lower(cfg.username), cfg.password, true)).1
  {
  }

  // ------------------------------------------------------------ the session

  class LoginSession {
    var loggedIn: Option<bool>
    var username: Option<string>

    constructor ()
      ensures loggedIn == None && username == None
    {
      loggedIn := None;
      username := None;
    }

    /** One run of the login form. */
    method CheckLogin(cfg: Credentials, typedUsername: string, typedPassword: string, pressed: bool)
      returns (ok: bool)
      modifies this
      ensures old(loggedIn) == Some(true) ==> ok && loggedIn == old(loggedIn) && username == old(username)
      ensures old(loggedIn) != Some(true) && !pressed ==>
                !ok && loggedIn == old(loggedIn) && username == old(username)
      ensures old(loggedIn) != Some(true) && pressed ==>
                ok == (typedUsername == cfg.username && typedPassword == cfg.password)
      ensures old(loggedIn) != Some(true) && pressed && ok ==>
                loggedIn == Some(true) && username == Some(typedUsername)
      ensures old(loggedIn) != Some(true) && pressed && !ok ==>
                loggedIn == Some(false) && username == old(username)
      ensures (LoginState(loggedIn, username), ok) ==
              Check(LoginState(old(loggedIn), old(username)), cfg, Attempt(typedUsername, typedPassword, pressed))
    {
      if loggedIn == Some(true) {
        return true;
      }
      if pressed {
        if typedUsername == cfg.username && typedPassword == cfg.password {
          loggedIn := Some(true);
          username := Some(typedUsername);
          return true;
        } else {
          loggedIn := Some(false);
          return false;
        }
      }
      return false;
    }
  }
}
