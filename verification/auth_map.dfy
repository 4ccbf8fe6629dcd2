/** The first login handler of login.js (lines 4-307): users carry an `id`,
    messes are an object keyed by mess id, and each mess's roster is kept
    under its own storage key `members:<messId>`. Its clear-data link,
    which acts on raw storage keys, is modelled here as well. */
module AuthByMap {
  import opened Seqs
  import opened Text
  import opened Session

  datatype User = User(id: string, name: string, email: string, password: string)

  /** What `currentUser` holds: a user without the password. */
  datatype Profile = Profile(id: string, name: string, email: string)

  /** A mess; `createdBy` is `null` (`None`) when nobody was signed in. */
  datatype Mess = Mess(password: string, createdBy: Option<string>, createdAt: int)

  /** An entry of a `members:<messId>` roster. */
  datatype MemberEntry = MemberEntry(id: int, name: string, email: string, joinDate: string)

  datatype SignupError = MissingField | IdTaken | EmailTaken
  datatype LoginError = InvalidCredentials
  datatype MessError = MissingMessField | MessExists | MessNotFound | WrongMessPassword

  const MembersPrefix: string := "members:"

  /** `storageKey(base, messId)`: the base key scoped to a mess, or the
      bare base key when there is no mess id. */
  function StorageKey(base: string, messId: string): (k: string)
    ensures messId == "" ==> k == base
    ensures messId != "" ==> StartsWith(k, base + [':']) && k[|base| + 1..] == messId
  {
    if messId != "" then base + ":" + messId else base
  }

  /** A storage key is the `:`-join of the base and the mess id, if any.
      With a `:`-free base the key holds a `:` exactly when a mess id is
      given, and with a `:`-free id as well it splits back into the two. */
  lemma StorageKeyAsJoin(base: string, messId: string)
    ensures var parts := if messId == "" then [base] else [base, messId];
            StorageKey(base, messId) == Join(parts, ':')
    ensures var key := StorageKey(base, messId);
            messId != "" ==> StartsWith(key, base) && |messId| <= |key| && key[|key| - |messId|..] == messId
    ensures ':' !in base ==> (':' in StorageKey(base, messId) <==> messId != "")
    ensures ':' !in base && ':' !in messId && messId != "" ==> Split(StorageKey(base, messId), ':') == [base, messId]
  {
    var parts := if messId == "" then [base] else [base, messId];
    if messId != "" {
      assert parts[1..] == [messId];
    }
    assert StorageKey(base, messId) == Join(parts, ':');
    JoinEnds(parts, ':');
    if ':' !in base && (messId == "" || ':' !in messId) {
      JoinHasSeparator(parts, ':');
      SplitJoin(parts, ':');
    }
  }

  /** The mess id of a roster key: everything after `members:`. */
  function MessIdOfKey(key: string): (messId: string)
    requires StartsWith(key, MembersPrefix)
    ensures MembersPrefix + messId == key
  {
    key[|MembersPrefix|..]
  }

  /** The roster key of a mess and the mess id read back from it determine
      each other. */
  lemma MessIdRoundTrip(messId: string, key: string)
    ensures messId != "" ==> StartsWith(StorageKey("members", messId), MembersPrefix)
                             && MessIdOfKey(StorageKey("members", messId)) == messId
    ensures StartsWith(key, MembersPrefix) && |key| > |MembersPrefix| ==> StorageKey("members", MessIdOfKey(key)) == key
  {
    if messId != "" {
      assert StorageKey("members", messId) == MembersPrefix + messId;
    }
    if StartsWith(key, MembersPrefix) && |key| > |MembersPrefix| {
      assert MembersPrefix + MessIdOfKey(key) == key;
    }
  }

  /** Helper: a roster key splits at `:` into "members" and the pieces of
      its mess id. */
  lemma SplitRosterKey(key: string)
    requires StartsWith(key, MembersPrefix)
    ensures Split(key, ':') == ["members"] + Split(key[|MembersPrefix|..], ':')
  {
    assert key == "members" + [':'] + key[|MembersPrefix|..];
    SplitAround("members", key[|MembersPrefix|..], ':');
    SplitFree("members", ':');
  }

  /** Mess discovery as the login handler writes it, `key.split(':')[1]`:
      the mess id only up to its first `:`. */
  function MessIdAsWritten(key: string): (messId: string)
    requires StartsWith(key, MembersPrefix)
    ensures messId == Split(key[|MembersPrefix|..], ':')[0]
    ensures ':' !in messId
  {
    SplitRosterKey(key);
    Split(key, ':')[1]
  }

  /** The key written for a mess is read back as that mess exactly when its
      id has no `:`; "hall:3" is read back as "hall". */
  lemma MessIdAsWrittenRoundTrip(messId: string)
    requires messId != ""
    ensures StartsWith(StorageKey("members", messId), MembersPrefix)
    ensures MessIdAsWritten(StorageKey("members", messId)) == messId <==> ':' !in messId
  {
    var key := StorageKey("members", messId);
    assert key == MembersPrefix + messId;
    assert key[|MembersPrefix|..] == messId;
    if ':' !in messId {
      SplitFree(messId, ':');
    }
  }

  lemma MessIdAsWrittenTruncates()
    ensures StartsWith(StorageKey("members", "hall:3"), MembersPrefix)
    ensures MessIdAsWritten(StorageKey("members", "hall:3")) == "hall"
  {
    var key := StorageKey("members", "hall:3");
    assert key[|MembersPrefix|..] == "hall" + [':'] + "3";
    SplitAround("hall", "3", ':');
    SplitFree("hall", ':');
    SplitFree("3", ':');
  }

  predicate HasEmail(roster: seq<MemberEntry>, email: string) {
    exists e :: e in roster && e.email == email
  }

  predicate DistinctEmails(roster: seq<MemberEntry>) {
    forall i, j :: 0 <= i < j < |roster| ==> roster[i].email != roster[j].email
  }

  /** `JSON.parse(localStorage.getItem(key) || '[]')`: a missing roster
      reads as the empty one. */
  function RosterAt(rosters: map<string, seq<MemberEntry>>, key: string): seq<MemberEntry> {
    if key in rosters then rosters[key] else []
  }

  /** The rosters after the signed-in user is added to the roster under
      `key` if no entry there has their email (`addSelfToMembers` and the
      join handler); every other roster is left alone. */
  function Enrolled(rosters: map<string, seq<MemberEntry>>, key: string, user: Profile, now: int, today: string)
    : (r: map<string, seq<MemberEntry>>)
    ensures HasEmail(RosterAt(r, key), user.email)
    ensures HasEmail(RosterAt(rosters, key), user.email) ==> r == rosters
    ensures !HasEmail(RosterAt(rosters, key), user.email) ==>
              r == rosters[key := RosterAt(rosters, key) + [MemberEntry(now, user.name, user.email, today)]]
  {
    var roster := RosterAt(rosters, key);
    if HasEmail(roster, user.email) then rosters
    else
      var entry := MemberEntry(now, user.name, user.email, today);
      assert entry in roster + [entry];
      rosters[key := roster + [entry]]
  }

  /** Adding oneself twice is adding oneself once, whatever the clock says
      the second time. */
  lemma EnrollIdempotent(rosters: map<string, seq<MemberEntry>>, key: string, user: Profile,
                         now: int, today: string, later: int, laterDay: string)
    ensures Enrolled(Enrolled(rosters, key, user, now, today), key, user, later, laterDay)
            == Enrolled(rosters, key, user, now, today)
  {
  }

  /** Enrolling keeps every roster free of repeated emails. */
  lemma EnrollKeepsDistinct(rosters: map<string, seq<MemberEntry>>, key: string, user: Profile, now: int, today: string)
    requires forall k :: k in rosters ==> DistinctEmails(rosters[k])
    ensures forall k :: k in Enrolled(rosters, key, user, now, today) ==> DistinctEmails(Enrolled(rosters, key, user, now, today)[k])
  {
    var roster := RosterAt(rosters, key);
    if !HasEmail(roster, user.email) {
      var grown := roster + [MemberEntry(now, user.name, user.email, today)];
      forall i, j | 0 <= i < j < |grown|
        ensures grown[i].email != grown[j].email
      {
        if j == |roster| {
          assert roster[i] in roster;
        }
      }
    }
  }

  predicate IdInUse(users: seq<User>, id: string) {
    exists u :: u in users && u.id == id
  }

  predicate EmailInUse(users: seq<User>, email: string) {
    exists u :: u in users && u.email == email
  }

  /** The signup checks, in the handler's order, on the trimmed name, id
      and email: every field filled and a password of at least six
      characters, then a fresh id, then a fresh email. */
  function CheckSignup(users: seq<User>, name: string, id: string, email: string, password: string)
    : (o: Outcome<SignupError>)
    ensures o == Fail(MissingField) <==> name == "" || id == "" || email == "" || |password| < 6
    ensures o == Fail(IdTaken) <==> name != "" && id != "" && email != "" && |password| >= 6 && IdInUse(users, id)
    ensures o == Fail(EmailTaken) <==>
              name != "" && id != "" && email != "" && |password| >= 6 && !IdInUse(users, id) && EmailInUse(users, email)
    ensures o == Pass <==>
              name != "" && id != "" && email != "" && |password| >= 6 && !IdInUse(users, id) && !EmailInUse(users, email)
  {
    if name == "" || id == "" || email == "" || |password| < 6 then Fail(MissingField)
    else if IdInUse(users, id) then Fail(IdTaken)
    else if EmailInUse(users, email) then Fail(EmailTaken)
    else Pass
  }

  predicate Matches(u: User, idOrEmail: string) {
    u.id == idOrEmail || u.email == idOrEmail
  }

  /** The login lookup: the first user whose id or email is the input,
      accepted only if that user's password is the one given. A later user
      with the same id or email is never considered. */
  function LoginUser(users: seq<User>, idOrEmail: string, password: string): (r: Option<User>)
    ensures r.Some? ==> exists i :: 0 <= i < |users| && users[i] == r.value && Matches(users[i], idOrEmail)
                                    && (forall j :: 0 <= j < i ==> !Matches(users[j], idOrEmail))
    ensures r.Some? ==> r.value.password == password
    ensures forall i :: 0 <= i < |users| && Matches(users[i], idOrEmail) && (forall j :: 0 <= j < i ==> !Matches(users[j], idOrEmail))
                        ==> r == (if users[i].password == password then Some(users[i]) else None)
    ensures (forall u :: u in users ==> !Matches(u, idOrEmail)) ==> r.None?
  {
    match FirstIndex(users, (u: User) => Matches(u, idOrEmail))
    case None => None
    case Some(i) => if users[i].password == password then Some(users[i]) else None
  }

  /** A key names the roster of a mess the user belongs to. */
  predicate Claims(key: string, rosters: map<string, seq<MemberEntry>>, email: string) {
    StartsWith(key, MembersPrefix) && HasEmail(RosterAt(rosters, key), email)
  }

  /** Mess discovery at login, as the handler does it: the first roster
      key, in the storage's enumeration order, whose roster holds the
      user's email, read back with `key.split(':')[1]`. */
  function DiscoveredMess(keys: seq<string>, rosters: map<string, seq<MemberEntry>>, email: string): (r: Option<string>)
    ensures r.None? <==> forall i :: 0 <= i < |keys| ==> !Claims(keys[i], rosters, email)
    ensures r.Some? ==> exists i :: 0 <= i < |keys| && Claims(keys[i], rosters, email)
                                    && r.value == MessIdAsWritten(keys[i])
                                    && forall j :: 0 <= j < i ==> !Claims(keys[j], rosters, email)
    ensures r.Some? ==> ':' !in r.value
  {
    match FirstIndex(keys, (k: string) => Claims(k, rosters, email))
    case None => None
    case Some(i) => Some(MessIdAsWritten(keys[i]))
  }

  /** The discovery the key scheme of `storageKey` calls for: the same
      first claiming key, read back as its whole suffix after `members:`. */
  function IntendedMess(keys: seq<string>, rosters: map<string, seq<MemberEntry>>, email: string): (r: Option<string>)
    ensures r.None? <==> forall i :: 0 <= i < |keys| ==> !Claims(keys[i], rosters, email)
    ensures r.Some? ==> exists i :: 0 <= i < |keys| && Claims(keys[i], rosters, email)
                                    && MembersPrefix + r.value == keys[i]
                                    && forall j :: 0 <= j < i ==> !Claims(keys[j], rosters, email)
  {
    match FirstIndex(keys, (k: string) => Claims(k, rosters, email))
    case None => None
    case Some(i) => Some(MessIdOfKey(keys[i]))
  }

  /** When the enumeration covers every roster, discovery finds nothing
      exactly when no roster lists the email. */
  lemma DiscoveryComplete(keys: seq<string>, rosters: map<string, seq<MemberEntry>>, email: string)
    requires forall k :: k in rosters ==> k in keys
    ensures DiscoveredMess(keys, rosters, email).None?
            <==> forall k :: k in rosters && StartsWith(k, MembersPrefix) ==> !HasEmail(rosters[k], email)
  {
    if DiscoveredMess(keys, rosters, email).None? {
      forall k | k in rosters && StartsWith(k, MembersPrefix)
        ensures !HasEmail(rosters[k], email)
      {
        var i :| 0 <= i < |keys| && keys[i] == k;
        assert !Claims(keys[i], rosters, email);
      }
    }
  }

  /** The two readings pick the same mess whenever no roster key carries a
      `:` in its mess id. */
  lemma DiscoveryAgreesWithoutColons(keys: seq<string>, rosters: map<string, seq<MemberEntry>>, email: string)
    requires forall k :: k in keys && StartsWith(k, MembersPrefix) ==> ':' !in k[|MembersPrefix|..]
    ensures DiscoveredMess(keys, rosters, email) == IntendedMess(keys, rosters, email)
  {
    match FirstIndex(keys, (k: string) => Claims(k, rosters, email))
    case None =>
    case Some(i) =>
      assert keys[i] in keys;
      SplitFree(keys[i][|MembersPrefix|..], ':');
  }

  /** A member of mess "hall:3" is sent to mess "hall" at login, where the
      key scheme calls for "hall:3". */
  lemma DiscoveryMisreads()
    ensures var rosters := map[StorageKey("members", "hall:3") := [MemberEntry(1, "Rahim", "r@x.com", "2025-04-21")]];
            && DiscoveredMess([StorageKey("members", "hall:3")], rosters, "r@x.com") == Some("hall")
            && IntendedMess([StorageKey("members", "hall:3")], rosters, "r@x.com") == Some("hall:3")
  {
    var key := StorageKey("members", "hall:3");
    var entry := MemberEntry(1, "Rahim", "r@x.com", "2025-04-21");
    var rosters := map[key := [entry]];
    assert entry in rosters[key];
    assert Claims(key, rosters, "r@x.com");
    MessIdAsWrittenTruncates();
  }

  /** The role a discovered mess gives: manager exactly when the mess was
      created by this user. */
  function RoleIn(messes: map<string, Mess>, messId: string, userId: string): Role {
    if messId in messes && messes[messId].createdBy == Some(userId) then Manager else Member
  }

  /** The role recorded by the create form decides the role of every later
      login into that mess: its creator is the manager, anyone else (and
      everybody, when it was created signed out) a member; an unknown mess
      makes everybody a member. */
  lemma RoleOfCreator(messes: map<string, Mess>, messId: string, password: string, creator: Option<string>,
                      now: int, userId: string)
    ensures RoleIn(messes[messId := Mess(password, creator, now)], messId, userId)
            == if creator == Some(userId) then Manager else Member
    ensures messId !in messes ==> RoleIn(messes, messId, userId) == Member
  {
  }

  const ClearedKeys: seq<string> := ["users", "messes", "currentUser", "currentMess", "tasks", "debts",
                                      "notices", "expenses", "mealCounts", "mealBudget", "reviews"]

  /** The clear-data link removes the eleven fixed keys and every
      mess-scoped roster. */
  predicate ClearsKey(key: string) {
    key in ClearedKeys || StartsWith(key, MembersPrefix)
  }

  /** Every mess roster is cleared, but the dashboard's own unscoped
      `members` list is not one of the cleared keys and survives. */
  lemma ClearedRosters(messId: string)
    ensures messId != "" ==> ClearsKey(StorageKey("members", messId))
    ensures !ClearsKey("members")
    ensures forall k :: k in ClearedKeys ==> ClearsKey(k)
  {
    if messId != "" {
      assert StorageKey("members", messId)[..|MembersPrefix|] == MembersPrefix;
    }
  }

  /** The first handler's view of local storage. */
  class AuthStore {
    var users: seq<User>
    var messes: map<string, Mess>
    var currentUser: Option<Profile>
    var currentMess: Option<MessSession>
    var rosters: map<string, seq<MemberEntry>>

    /** No two users share an id or an email, no mess has the empty id, and
        no roster lists an email twice. */
    predicate Valid()
      reads this
    {
      && (forall i, j :: 0 <= i < j < |users| ==> users[i].id != users[j].id && users[i].email != users[j].email)
      && "" !in messes
      && (forall k :: k in rosters ==> DistinctEmails(rosters[k]))
    }

    constructor ()
      ensures users == [] && messes == map[] && currentUser.None? && currentMess.None? && rosters == map[]
      ensures Valid()
    {
      users := [];
      messes := map[];
      currentUser := None;
      currentMess := None;
      rosters := map[];
    }

    /** The signup form. On success the user is stored and signed in. */
    method Signup(nameInput: string, idInput: string, emailInput: string, password: string)
      returns (outcome: Outcome<SignupError>)
      modifies this`users, this`currentUser
      ensures outcome == CheckSignup(old(users), Trim(nameInput), Trim(idInput), Trim(emailInput), password)
      ensures outcome.Pass? ==> users == old(users) + [User(Trim(idInput), Trim(nameInput), Trim(emailInput), password)]
                                && currentUser == Some(Profile(Trim(idInput), Trim(nameInput), Trim(emailInput)))
      ensures outcome.Fail? ==> users == old(users) && currentUser == old(currentUser)
      ensures old(Valid()) ==> Valid()
    {
      var name := Trim(nameInput);
      var id := Trim(idInput);
      var email := Trim(emailInput);
      outcome := CheckSignup(users, name, id, email, password);
      if outcome.Pass? {
        var user := User(id, name, email, password);
        forall u | u in users
          ensures u.id != id && u.email != email
        {
        }
        users := users + [user];
        currentUser := Some(Profile(id, name, email));
      }
    }

    /** The discovery loop of the login handler over the storage keys in
        enumeration order (`keys`, which lists every stored roster); it
        stops at the first roster holding the email. */
    method DiscoverMess(keys: seq<string>, email: string) returns (found: Option<string>)
      requires forall k :: k in rosters ==> k in keys
      ensures found == DiscoveredMess(keys, rosters, email)
    {
      var i := 0;
      while i < |keys|
        invariant 0 <= i <= |keys|
        invariant forall j :: 0 <= j < i ==> !Claims(keys[j], rosters, email)
      {
        var key := keys[i];
        if StartsWith(key, MembersPrefix) {
          var roster := RosterAt(rosters, key);
          if exists e :: e in roster && e.email == email {
            return Some(MessIdAsWritten(key));
          }
        }
        i := i + 1;
      }
      return None;
    }

    /** The login form. The user signs in; if no mess is selected yet, the
        rosters are searched and a mess found there becomes the current
        one, with the manager role exactly for its creator. A mess id that
        reads back empty (from a key such as `members::x`) is falsy and
        selects nothing. */
    method Login(loginInput: string, password: string, keys: seq<string>) returns (outcome: Outcome<LoginError>)
      requires forall k :: k in rosters ==> k in keys
      modifies this`currentUser, this`currentMess
      ensures outcome.Pass? <==> LoginUser(users, Trim(loginInput), password).Some?
      ensures outcome.Fail? ==> currentUser == old(currentUser) && currentMess == old(currentMess)
      ensures outcome.Pass? ==>
                var u := LoginUser(users, Trim(loginInput), password).value;
                var found := DiscoveredMess(keys, rosters, u.email);
                && currentUser == Some(Profile(u.id, u.name, u.email))
                && (old(currentMess).Some? && old(currentMess).value.messId != "" ==> currentMess == old(currentMess))
                && (!(old(currentMess).Some? && old(currentMess).value.messId != "") ==>
                      if found.Some? && found.value != ""
                      then currentMess == Some(MessSession(found.value, RoleIn(messes, found.value, u.id)))
                      else currentMess == old(currentMess))
    {
      var user := LoginUser(users, Trim(loginInput), password);
      if user.None? {
        return Fail(InvalidCredentials);
      }
      var u := user.value;
      currentUser := Some(Profile(u.id, u.name, u.email));
      if currentMess.Some? && currentMess.value.messId != "" {
        return Pass;
      }
      RestoreMess(keys);
      return Pass;
    }

    /** The login handler's mess detection for the signed-in user: a
        discovered mess whose id reads back non-empty becomes current, as
        manager exactly for its creator; otherwise nothing changes. */
    method RestoreMess(keys: seq<string>)
      requires currentUser.Some? && forall k :: k in rosters ==> k in keys
      modifies this`currentMess
      ensures var found := DiscoveredMess(keys, rosters, currentUser.value.email);
              if found.Some? && found.value != ""
              then currentMess == Some(MessSession(found.value, RoleIn(messes, found.value, currentUser.value.id)))
              else currentMess == old(currentMess)
    {
      var found := DiscoverMess(keys, currentUser.value.email);
      if found.Some? && found.value != "" {
        currentMess := Some(MessSession(found.value, RoleIn(messes, found.value, currentUser.value.id)));
      }
    }

    /** `addSelfToMembers(messId)`: nothing without a signed-in user. */
    method AddSelfToMembers(messId: string, now: int, today: string)
      modifies this`rosters
      ensures currentUser.None? ==> rosters == old(rosters)
      ensures currentUser.Some? ==> rosters == Enrolled(old(rosters), StorageKey("members", messId), currentUser.value, now, today)
      ensures old(Valid()) ==> Valid()
    {
      EnrollAt(StorageKey("members", messId), now, today);
    }

    /** Helper: enrolls the signed-in user, if any, in the roster stored
        under `key`. */
    method EnrollAt(key: string, now: int, today: string)
      modifies this`rosters
      ensures currentUser.None? ==> rosters == old(rosters)
      ensures currentUser.Some? ==> rosters == Enrolled(old(rosters), key, currentUser.value, now, today)
      ensures old(Valid()) ==> Valid()
    {
      if currentUser.None? {
        return;
      }
      if old(Valid()) {
        EnrollKeepsDistinct(rosters, key, currentUser.value, now, today);
      }
      rosters := Enrolled(rosters, key, currentUser.value, now, today);
    }

    /** The create-mess form: the signed-in user (if any) creates the mess,
        becomes its manager and joins its roster. */
    method CreateMess(messIdInput: string, password: string, now: int, today: string)
      returns (outcome: Outcome<MessError>)
      modifies this`messes, this`currentMess, this`rosters
      ensures var messId := Trim(messIdInput);
              && (outcome == Fail(MissingMessField) <==> messId == "" || password == "")
              && (outcome == Fail(MessExists) <==> messId != "" && password != "" && messId in old(messes))
              && (outcome.Fail? ==> messes == old(messes) && currentMess == old(currentMess) && rosters == old(rosters))
              && (outcome.Pass? ==>
                    && messes == old(messes)[messId := Mess(password, if currentUser.Some? then Some(currentUser.value.id) else None, now)]
                    && currentMess == Some(MessSession(messId, Manager))
                    && rosters == if currentUser.Some?
                                  then Enrolled(old(rosters), StorageKey("members", messId), currentUser.value, now, today)
                                  else old(rosters))
      ensures outcome.Pass? || outcome == Fail(MissingMessField) || outcome == Fail(MessExists)
      ensures old(Valid()) ==> Valid()
    {
      var messId := Trim(messIdInput);
      if messId == "" || password == "" {
        return Fail(MissingMessField);
      }
      if messId in messes {
        return Fail(MessExists);
      }
      var createdBy := if currentUser.Some? then Some(currentUser.value.id) else None;
      messes := messes[messId := Mess(password, createdBy, now)];
      currentMess := Some(MessSession(messId, Manager));
      AddSelfToMembers(messId, now, today);
      return Pass;
    }

    /** The join-mess form: the mess must exist and its password match; the
        user then works in it as a member and joins its roster. */
    method JoinMess(messIdInput: string, password: string, now: int, today: string)
      returns (outcome: Outcome<MessError>)
      modifies this`currentMess, this`rosters
      ensures var messId := Trim(messIdInput);
              && (outcome == Fail(MessNotFound) <==> messId !in messes)
              && (outcome == Fail(WrongMessPassword) <==> messId in messes && messes[messId].password != password)
              && (outcome.Fail? ==> currentMess == old(currentMess) && rosters == old(rosters))
              && (outcome.Pass? ==>
                    && currentMess == Some(MessSession(messId, Member))
                    && rosters == if currentUser.Some?
                                  then Enrolled(old(rosters), MembersPrefix + messId, currentUser.value, now, today)
                                  else old(rosters))
      ensures outcome.Pass? || outcome == Fail(MessNotFound) || outcome == Fail(WrongMessPassword)
      ensures old(Valid()) ==> Valid()
    {
      var messId := Trim(messIdInput);
      if messId !in messes {
        return Fail(MessNotFound);
      }
      if messes[messId].password != password {
        return Fail(WrongMessPassword);
      }
      currentMess := Some(MessSession(messId, Member));
      EnrollAt(MembersPrefix + messId, now, today);
      return Pass;
    }
  }

  /** The join handler spells the roster key out instead of calling
      `storageKey`; for any mess that can be joined the two agree. */
  lemma JoinKeyIsStorageKey(messId: string)
    requires messId != ""
    ensures MembersPrefix + messId == StorageKey("members", messId)
  {
  }

  /** Local storage as raw keys and (serialised) values, which is all the
      clear-data link looks at. */
  class DeviceStorage {
    var items: map<string, string>

    constructor (items: map<string, string>)
      ensures this.items == items
    {
      this.items := items;
    }

    /** The clear-data link: every key the storage enumerates is visited and
        removed when it is one of the cleared keys. */
    method ClearMessData(keys: seq<string>)
      requires forall k :: k in keys <==> k in items
      modifies this
      ensures items == map k | k in old(items) && !ClearsKey(k) :: old(items)[k]
    {
      var i := 0;
      while i < |keys|
        invariant 0 <= i <= |keys|
        invariant items == map k | k in old(items) && !(k in keys[..i] && ClearsKey(k)) :: old(items)[k]
      {
        var key := keys[i];
        if ClearsKey(key) {
          items := map k | k in items && k != key :: items[k];
        }
        assert keys[..i + 1] == keys[..i] + [key];
        i := i + 1;
      }
      assert keys[..i] == keys;
    }
  }
}
