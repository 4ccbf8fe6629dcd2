/** The two login handlers of login.js side by side (lines 143-148 against
    lines 392-396): every sign-in the first accepts, the second accepts
    with the same user, but not the other way round, because the first
    checks the password of the first user whose id or email matches only. */
module AuthCompare {
  import opened Seqs
  import AuthByMap
  import AuthByArray

  /** The same account in the second handler's schema. */
  function AsArrayUser(u: AuthByMap.User): AuthByArray.User {
    AuthByArray.User(u.id, u.email, u.name, u.password)
  }

  function AsArrayUsers(users: seq<AuthByMap.User>): (r: seq<AuthByArray.User>)
    ensures |r| == |users|
    ensures forall i :: 0 <= i < |users| ==> r[i] == AsArrayUser(users[i])
  {
    if users == [] then [] else [AsArrayUser(users[0])] + AsArrayUsers(users[1..])
  }

  /** Whatever the first handler lets in, the second lets in as the same
      user. */
  lemma FirstLoginImpliesSecond(users: seq<AuthByMap.User>, idOrEmail: string, password: string)
    requires AuthByMap.LoginUser(users, idOrEmail, password).Some?
    ensures AuthByArray.LoginUser(AsArrayUsers(users), idOrEmail, password)
            == Some(AsArrayUser(AuthByMap.LoginUser(users, idOrEmail, password).value))
  {
    var u := AuthByMap.LoginUser(users, idOrEmail, password).value;
    var i :| 0 <= i < |users| && users[i] == u && AuthByMap.Matches(users[i], idOrEmail)
             && (forall j :: 0 <= j < i ==> !AuthByMap.Matches(users[j], idOrEmail));
    var converted := AsArrayUsers(users);
    forall j | 0 <= j < i
      ensures !AuthByArray.Admits(converted[j], idOrEmail, password)
    {
      assert !AuthByMap.Matches(users[j], idOrEmail);
    }
    AuthByArray.LoginUserIsFirstAdmitted(converted, idOrEmail, password, i);
  }

  /** When one user's email is another user's id, the second user signs in
      with their own password under the second handler only: the first
      handler checks the password against the first user. */
  lemma LoginHandlersDiffer()
    ensures var first := AuthByMap.User("alice", "Alice", "a@gmail.com", "secret1");
            var second := AuthByMap.User("a@gmail.com", "Bob", "b@gmail.com", "secret2");
            && AuthByMap.LoginUser([first, second], "a@gmail.com", "secret2").None?
            && AuthByArray.LoginUser(AsArrayUsers([first, second]), "a@gmail.com", "secret2") == Some(AsArrayUser(second))
  {
    var first := AuthByMap.User("alice", "Alice", "a@gmail.com", "secret1");
    var second := AuthByMap.User("a@gmail.com", "Bob", "b@gmail.com", "secret2");
    var users := [first, second];
    assert AuthByMap.Matches(users[0], "a@gmail.com");
    var converted := AsArrayUsers(users);
    assert !AuthByArray.Admits(converted[0], "a@gmail.com", "secret2");
    assert AuthByArray.Admits(converted[1], "a@gmail.com", "secret2");
  }
}
