/**
 * The authentication state shared by all consumers (`useAuth`): the current
 * user and role, and one in-flight flag per operation. Each backend call is
 * an `Outcome` supplied by the caller, and each operation is one atomic step.
 */
module Auth {
  import opened Common

  datatype User = User(id: string, role: string)

  datatype Role = Role(id: string, name: string)

  /**
   * The two reads `setUser` awaits: the current user, then the role with
   * the id that user carries.
   */
  datatype UserReads = UserReads(me: Outcome<User>, readRole: string -> Outcome<Role>)

  /** Whether both reads of `setUser` succeed. */
  predicate ReadsSucceed(b: UserReads)
  {
    b.me.Ok? && b.readRole(b.me.value.role).Ok?
  }

  class Session {
    var loggingIn: bool
    var refreshing: bool
    var loggingOut: bool
    var user: Option<User>
    var role: Option<Role>

    /** The computed `loading`: some operation is in flight. */
    function Loading(): (b: bool)
      reads this
      ensures loggingIn ==> b
      ensures refreshing ==> b
      ensures loggingOut ==> b
      ensures b ==> loggingIn || refreshing || loggingOut
    {
      loggingIn || loggingOut || refreshing
    }

    /** The computed `authenticated`: a user is stored. */
    function Authenticated(): (b: bool)
      reads this
      ensures b <==> user.Some?
    {
      user.Some?
    }

    constructor ()
      ensures !Loading() && !Authenticated() && role.None?
    {
      loggingIn, refreshing, loggingOut := false, false, false;
      user, role := None, None;
    }

    /**
     * `setUser`: stores the user as soon as it is read, then the role read
     * for that user's role id; the first failing read is rethrown.
     */
    method SetUser(b: UserReads) returns (r: Outcome<()>)
      modifies this`user, this`role
      ensures r.Ok? <==> ReadsSucceed(b)
      ensures b.me.Err? ==> r == Err(b.me.error) && user == old(user) && role == old(role)
      ensures b.me.Ok? ==> user == Some(b.me.value)
      ensures ReadsSucceed(b) ==> role == Some(b.readRole(b.me.value.role).value)
      ensures !ReadsSucceed(b) ==> role == old(role)
    {
      if b.me.Err? {
        return Err(b.me.error);
      }
      user := Some(b.me.value);
      var fetched := b.readRole(b.me.value.role);
      if fetched.Err? {
        return Err(fetched.error);
      }
      role := Some(fetched.value);
      r := Ok(());
    }

    /** `unsetUser`: clears the user only; the role keeps its value. */
    method UnsetUser()
      modifies this`user
      ensures user.None?
    {
      user := None;
    }

    /**
     * `login`: authenticates, then runs `setUser`; a failure at any step
     * leaves no user. Returns the user as it stands afterwards.
     */
    method Login(authenticate: Outcome<()>, b: UserReads) returns (u: Option<User>)
      modifies this
      ensures u == user
      ensures Authenticated() <==> authenticate.Ok? && ReadsSucceed(b)
      ensures Authenticated() ==>
        user == Some(b.me.value) && role == Some(b.readRole(b.me.value.role).value)
      ensures !Authenticated() ==> role == old(role)
      ensures !loggingIn && refreshing == old(refreshing) && loggingOut == old(loggingOut)
      ensures !Loading() <==> !old(refreshing) && !old(loggingOut)
    {
      loggingIn := true;
      if authenticate.Err? {
        UnsetUser();
      } else {
        var stored := SetUser(b);
        if stored.Err? {
          UnsetUser();
        }
      }
      loggingIn := false;
      u := user;
    }

    /**
     * `refresh`: refreshes the token, then runs `setUser`; a failure at any
     * step leaves no user. Returns the user as it stands afterwards.
     */
    method Refresh(refreshToken: Outcome<()>, b: UserReads) returns (u: Option<User>)
      modifies this
      ensures u == user
      ensures Authenticated() <==> refreshToken.Ok? && ReadsSucceed(b)
      ensures Authenticated() ==>
        user == Some(b.me.value) && role == Some(b.readRole(b.me.value.role).value)
      ensures !Authenticated() ==> role == old(role)
      ensures !refreshing && loggingIn == old(loggingIn) && loggingOut == old(loggingOut)
      ensures !Loading() <==> !old(loggingIn) && !old(loggingOut)
    {
      refreshing := true;
      if refreshToken.Err? {
        UnsetUser();
      } else {
        var stored := SetUser(b);
        if stored.Err? {
          UnsetUser();
        }
      }
      refreshing := false;
      u := user;
    }

    /**
     * `logout`: whatever the backend answers, the user is cleared and
     * `undefined` is returned.
     */
    method Logout(signOut: Outcome<()>) returns (u: Option<User>)
      modifies this
      ensures u.None? && !Authenticated()
      ensures !loggingOut && loggingIn == old(loggingIn) && refreshing == old(refreshing)
      ensures role == old(role)
    {
      loggingOut := true;
      // A failed sign-out is only logged.
      UnsetUser();
      loggingOut := false;
      u := user;
    }

    /**
     * `check`: without a truthy token nothing changes; with one, `setUser`
     * is tried with `first`, and if it throws, `refresh` runs with
     * `refreshToken` and `second`.
     */
    method Check(token: Option<string>, first: UserReads, refreshToken: Outcome<()>, second: UserReads)
      modifies this
      ensures !Truthy(token) ==>
        user == old(user) && role == old(role) && loggingIn == old(loggingIn) &&
        refreshing == old(refreshing) && loggingOut == old(loggingOut)
      ensures Truthy(token) && ReadsSucceed(first) ==>
        user == Some(first.me.value) && role == Some(first.readRole(first.me.value.role).value) &&
        loggingIn == old(loggingIn) && refreshing == old(refreshing) && loggingOut == old(loggingOut)
      ensures Truthy(token) && !ReadsSucceed(first) ==>
        && (Authenticated() <==> refreshToken.Ok? && ReadsSucceed(second))
        && (Authenticated() ==>
              user == Some(second.me.value) && role == Some(second.readRole(second.me.value.role).value))
        && (!Authenticated() ==> role == old(role))
        && !refreshing && loggingIn == old(loggingIn) && loggingOut == old(loggingOut)
    {
      if Truthy(token) {
        var stored := SetUser(first);
        if stored.Err? {
          var _ := Refresh(refreshToken, second);
        }
      }
    }
  }
}
