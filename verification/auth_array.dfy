/** The second login handler of login.js (lines 311-483): users carry a
    `uid`, signup insists on a Gmail address, and messes are an array of
    records that list their members' uids. Reading `currentUser.uid` when
    nobody is signed in throws a `TypeError` that ends the handler before
    anything is stored; that is the `NoSession` outcome here. */
module AuthByArray {
  import opened Seqs
  import opened Text
  import opened Session

  datatype User = User(uid: string, email: string, name: string, password: string)

  datatype Profile = Profile(uid: string, email: string, name: string)

  datatype Mess = Mess(messId: string, messPass: string, managerUid: string, members: seq<string>)

  datatype SignupError = MissingField | NotGmail | ShortPassword | UidTaken | EmailTaken
  datatype LoginError = InvalidCredentials
  datatype MessError = MissingMessField | MessExists | InvalidMessCredentials | NoSession

  const GmailSuffix: string := "@gmail.com"

  /** `/^[^@\s]+@gmail\.com$/`: one or more characters that are neither `@`
      nor white space, followed by exactly `@gmail.com`. */
  predicate IsGmail(email: string) {
    |email| > |GmailSuffix|
    && email[|email| - |GmailSuffix|..] == GmailSuffix
    && forall i :: 0 <= i < |email| - |GmailSuffix| ==> email[i] != '@' && !IsWhiteSpace(email[i])
  }

  /** A Gmail address has exactly one `@`, the one of its suffix. */
  lemma GmailHasOneAt(email: string)
    requires IsGmail(email)
    ensures forall i :: 0 <= i < |email| && email[i] == '@' ==> i == |email| - |GmailSuffix|
  {
    var start := |email| - |GmailSuffix|;
    assert forall k :: 0 < k < |GmailSuffix| ==> GmailSuffix[k] != '@';
    assert forall i :: start <= i < |email| ==> email[i] == GmailSuffix[i - start];
  }

  lemma GmailExamples()
    ensures IsGmail("rahim@gmail.com")
    ensures !IsGmail("@gmail.com")
    ensures !IsGmail("ra him@gmail.com")
    ensures !IsGmail("rahim@yahoo.com")
  {
    assert "ra him@gmail.com"[2] == ' ';
    assert "rahim@yahoo.com"[5..] != GmailSuffix;
  }

  predicate UidInUse(users: seq<User>, uid: string) {
    exists u :: u in users && u.uid == uid
  }

  predicate EmailInUse(users: seq<User>, email: string) {
    exists u :: u in users && u.email == email
  }

  /** The signup checks in the handler's order: all fields filled, a Gmail
      address, a password of at least six characters, a fresh uid, a fresh
      email. */
  function CheckSignup(users: seq<User>, name: string, uid: string, email: string, password: string)
    : (o: Outcome<SignupError>)
    ensures o == Fail(MissingField) <==> name == "" || uid == "" || email == "" || password == ""
    ensures o == Fail(NotGmail) <==> name != "" && uid != "" && email != "" && password != "" && !IsGmail(email)
    ensures o == Fail(ShortPassword) <==>
              name != "" && uid != "" && password != "" && IsGmail(email) && |password| < 6
    ensures o == Fail(UidTaken) <==>
              name != "" && uid != "" && IsGmail(email) && |password| >= 6 && UidInUse(users, uid)
    ensures o == Fail(EmailTaken) <==>
              name != "" && uid != "" && IsGmail(email) && |password| >= 6 && !UidInUse(users, uid) && EmailInUse(users, email)
    ensures o == Pass <==>
              name != "" && uid != "" && IsGmail(email) && |password| >= 6 && !UidInUse(users, uid) && !EmailInUse(users, email)
  {
    if name == "" || uid == "" || email == "" || password == "" then Fail(MissingField)
    else if !IsGmail(email) then Fail(NotGmail)
    else if |password| < 6 then Fail(ShortPassword)
    else if UidInUse(users, uid) then Fail(UidTaken)
    else if EmailInUse(users, email) then Fail(EmailTaken)
    else Pass
  }

  predicate Admits(u: User, idOrEmail: string, password: string) {
    (u.uid == idOrEmail || u.email == idOrEmail) && u.password == password
  }

  /** The login lookup: the first user whose uid or email is the input and
      whose password is the one given. */
  function LoginUser(users: seq<User>, idOrEmail: string, password: string): (r: Option<User>)
    ensures r.None? <==> forall i :: 0 <= i < |users| ==> !Admits(users[i], idOrEmail, password)
    ensures r.Some? ==> exists i :: 0 <= i < |users| && users[i] == r.value && Admits(users[i], idOrEmail, password)
                                    && forall j :: 0 <= j < i ==> !Admits(users[j], idOrEmail, password)
  {
    match FirstIndex(users, (u: User) => Admits(u, idOrEmail, password))
    case None => None
    case Some(i) => Some(users[i])
  }

  /** Helper: the first admitted user is the one let in. */
  lemma LoginUserIsFirstAdmitted(users: seq<User>, idOrEmail: string, password: string, i: int)
    requires 0 <= i < |users| && Admits(users[i], idOrEmail, password)
    requires forall j :: 0 <= j < i ==> !Admits(users[j], idOrEmail, password)
    ensures LoginUser(users, idOrEmail, password) == Some(users[i])
  {
    var r := LoginUser(users, idOrEmail, password);
    var k :| 0 <= k < |users| && users[k] == r.value && Admits(users[k], idOrEmail, password)
             && forall j :: 0 <= j < k ==> !Admits(users[j], idOrEmail, password);
    assert !(k < i) && !(i < k);
  }

  predicate BelongsTo(m: Mess, uid: string) {
    m.managerUid == uid || uid in m.members
  }

  /** The mess a signing-in user already belongs to: the first one they
      manage or are listed in. */
  function ExistingMess(messes: seq<Mess>, uid: string): (r: Option<Mess>)
    ensures r.None? <==> forall i :: 0 <= i < |messes| ==> !BelongsTo(messes[i], uid)
    ensures r.Some? ==> exists i :: 0 <= i < |messes| && messes[i] == r.value && BelongsTo(messes[i], uid)
                                    && forall j :: 0 <= j < i ==> !BelongsTo(messes[j], uid)
  {
    match FirstIndex(messes, (m: Mess) => BelongsTo(m, uid))
    case None => None
    case Some(i) => Some(messes[i])
  }

  predicate NoRepeats(uids: seq<string>) {
    forall i, j :: 0 <= i < j < |uids| ==> uids[i] != uids[j]
  }

  /** `if (!members.includes(uid)) members.push(uid)`. */
  function WithMember(members: seq<string>, uid: string): (r: seq<string>)
    ensures uid in r
    ensures forall x :: x in r <==> x in members || x == uid
    ensures NoRepeats(members) ==> NoRepeats(r)
    ensures uid in members ==> r == members
    ensures members <= r && |r| <= |members| + 1
  {
    if uid in members then members else members + [uid]
  }

  /** Joining a mess one already belongs to changes nothing. */
  lemma WithMemberIdempotent(members: seq<string>, uid: string)
    ensures WithMember(WithMember(members, uid), uid) == WithMember(members, uid)
  {
  }

  /** The second handler's view of local storage. */
  class AuthStore {
    var users: seq<User>
    var messes: seq<Mess>
    var currentUser: Option<Profile>
    var currentMess: Option<MessSession>

    /** No two users share a uid or an email, no two messes share an id,
        and no mess lists a member twice. */
    predicate Valid()
      reads this
    {
      && (forall i, j :: 0 <= i < j < |users| ==> users[i].uid != users[j].uid && users[i].email != users[j].email)
      && (forall i, j :: 0 <= i < j < |messes| ==> messes[i].messId != messes[j].messId)
      && (forall i :: 0 <= i < |messes| ==> NoRepeats(messes[i].members))
    }

    constructor ()
      ensures users == [] && messes == [] && currentUser.None? && currentMess.None?
      ensures Valid()
    {
      users := [];
      messes := [];
      currentUser := None;
      currentMess := None;
    }

    method Signup(nameInput: string, uidInput: string, emailInput: string, password: string)
      returns (outcome: Outcome<SignupError>)
      modifies this`users, this`currentUser
      ensures outcome == CheckSignup(old(users), Trim(nameInput), Trim(uidInput), Trim(emailInput), password)
      ensures outcome.Pass? ==> users == old(users) + [User(Trim(uidInput), Trim(emailInput), Trim(nameInput), password)]
                                && currentUser == Some(Profile(Trim(uidInput), Trim(emailInput), Trim(nameInput)))
      ensures outcome.Fail? ==> users == old(users) && currentUser == old(currentUser)
      ensures old(Valid()) ==> Valid()
    {
      var name := Trim(nameInput);
      var uid := Trim(uidInput);
      var email := Trim(emailInput);
      outcome := CheckSignup(users, name, uid, email, password);
      if outcome.Pass? {
        forall u | u in users
          ensures u.uid != uid && u.email != email
        {
        }
        users := users + [User(uid, email, name, password)];
        currentUser := Some(Profile(uid, email, name));
      }
    }

    /** The login form: the user signs in, and a mess they already belong
        to becomes the current one, as manager exactly if they manage it. */
    method Login(loginInput: string, password: string) returns (outcome: Outcome<LoginError>)
      modifies this`currentUser, this`currentMess
      ensures outcome.Pass? <==> LoginUser(users, Trim(loginInput), password).Some?
      ensures outcome.Fail? ==> currentUser == old(currentUser) && currentMess == old(currentMess)
      ensures outcome.Pass? ==>
                var u := LoginUser(users, Trim(loginInput), password).value;
                var m := ExistingMess(messes, u.uid);
                && currentUser == Some(Profile(u.uid, u.email, u.name))
                && (m.None? ==> currentMess == old(currentMess))
                && (m.Some? ==> currentMess == Some(MessSession(m.value.messId, if m.value.managerUid == u.uid then Manager else Member)))
    {
      var user := LoginUser(users, Trim(loginInput), password);
      if user.None? {
        return Fail(InvalidCredentials);
      }
      var u := user.value;
      currentUser := Some(Profile(u.uid, u.email, u.name));
      var existing := ExistingMess(messes, u.uid);
      if existing.Some? {
        var role := if existing.value.managerUid == u.uid then Manager else Member;
        currentMess := Some(MessSession(existing.value.messId, role));
      }
      return Pass;
    }

    /** The create-mess form: the signed-in user creates the mess, manages
        it and is its first member. */
    method CreateMess(messIdInput: string, messPass: string) returns (outcome: Outcome<MessError>)
      modifies this`messes, this`currentMess
      ensures var messId := Trim(messIdInput);
              && (outcome == Fail(MissingMessField) <==> messId == "" || messPass == "")
              && (outcome == Fail(MessExists) <==>
                    messId != "" && messPass != "" && exists m :: m in old(messes) && m.messId == messId)
              && (outcome == Fail(NoSession) <==>
                    messId != "" && messPass != "" && (forall m :: m in old(messes) ==> m.messId != messId)
                    && currentUser.None?)
              && (outcome.Fail? ==> messes == old(messes) && currentMess == old(currentMess))
              && (outcome.Pass? ==>
                    && messes == old(messes) + [Mess(messId, messPass, currentUser.value.uid, [currentUser.value.uid])]
                    && currentMess == Some(MessSession(messId, Manager)))
      ensures outcome != Fail(InvalidMessCredentials)
      ensures old(Valid()) ==> Valid()
    {
      var messId := Trim(messIdInput);
      if messId == "" || messPass == "" {
        return Fail(MissingMessField);
      }
      if exists m :: m in messes && m.messId == messId {
        return Fail(MessExists);
      }
      if currentUser.None? {
        return Fail(NoSession);
      }
      var uid := currentUser.value.uid;
      messes := messes + [Mess(messId, messPass, uid, [uid])];
      currentMess := Some(MessSession(messId, Manager));
      return Pass;
    }

    /** The join-mess form: a mess with this id and password must exist and
        someone must be signed in; the user is then listed in it (once) and
        works in it as a member. */
    method JoinMess(messIdInput: string, messPass: string) returns (outcome: Outcome<MessError>)
      modifies this`messes, this`currentMess
      ensures var messId := Trim(messIdInput);
              var found := FirstIndex(old(messes), (m: Mess) => m.messId == messId && m.messPass == messPass);
              && (outcome == Fail(InvalidMessCredentials) <==> found.None?)
              && (outcome == Fail(NoSession) <==> found.Some? && currentUser.None?)
              && (outcome.Fail? ==> messes == old(messes) && currentMess == old(currentMess))
              && (outcome.Pass? ==>
                    && found.Some? && currentUser.Some?
                    && var k := found.value;
                       && messes == old(messes)[k := old(messes)[k].(members := WithMember(old(messes)[k].members, currentUser.value.uid))]
                       && currentMess == Some(MessSession(messId, Member)))
      ensures outcome.Pass? || outcome == Fail(InvalidMessCredentials) || outcome == Fail(NoSession)
      ensures old(Valid()) ==> Valid()
    {
      var messId := Trim(messIdInput);
      var found := FirstIndex(messes, (m: Mess) => m.messId == messId && m.messPass == messPass);
      if found.None? {
        return Fail(InvalidMessCredentials);
      }
      if currentUser.None? {
        return Fail(NoSession);
      }
      var k := found.value;
      messes := messes[k := messes[k].(members := WithMember(messes[k].members, currentUser.value.uid))];
      currentMess := Some(MessSession(messId, Member));
      return Pass;
    }
  }
}
