/** The user registry behind sign-in: the list of users and the signed-in one. E-mail
    addresses are compared ignoring case; ids come from elsewhere and are parameters here. */
module Auth {
  import opened Wrappers
  import opened Lists
  import opened Text
  import opened Types
  import opened Seed
  import opened Engine

  function EmailMatches(email: string): User -> bool {
    (u: User) => EqualsIgnoringCase(u.email, email)
  }

  function NotUserId(id: string): User -> bool {
    (u: User) => u.id != id
  }

  /** The first user whose e-mail equals `email` ignoring case. */
  function FindByEmail(users: seq<User>, email: string): (r: Option<User>)
    ensures r.None? <==> forall i :: 0 <= i < |users| ==> !EqualsIgnoringCase(users[i].email, email)
    ensures r.Some? ==> exists i :: 0 <= i < |users| && users[i] == r.value &&
                          EqualsIgnoringCase(r.value.email, email) &&
                          forall j :: 0 <= j < i ==> !EqualsIgnoringCase(users[j].email, email)
  {
    Find(users, EmailMatches(email))
  }

  /** `users.some(u => u.email.toLowerCase() === email.toLowerCase())`. */
  predicate EmailTaken(users: seq<User>, email: string) {
    Exists(users, EmailMatches(email))
  }

  /** No two users share an e-mail address, ignoring case. */
  predicate EmailsUnique(users: seq<User>) {
    forall i, j :: 0 <= i < j < |users| ==> !EqualsIgnoringCase(users[i].email, users[j].email)
  }

  /** An address is taken exactly when a login with it finds someone. */
  lemma EmailTakenIffFound(users: seq<User>, email: string)
    ensures EmailTaken(users, email) <==> FindByEmail(users, email).Some?
  {
  }

  /** With unique addresses a login lands on the one user with that address, whichever case
      the address is typed in. */
  lemma LoginFindsTheUser(users: seq<User>, i: int, email: string)
    requires EmailsUnique(users) && 0 <= i < |users| && EqualsIgnoringCase(users[i].email, email)
    ensures FindByEmail(users, email) == Some(users[i])
  {
    var r := FindByEmail(users, email);
    var k :| 0 <= k < |users| && users[k] == r.value && EqualsIgnoringCase(r.value.email, email) &&
             forall j :: 0 <= j < k ==> !EqualsIgnoringCase(users[j].email, email);
    EqualsIgnoringCaseFacts(users[i].email, email, users[k].email);
    EqualsIgnoringCaseFacts(users[k].email, email, users[i].email);
    EqualsIgnoringCaseFacts(email, users[i].email, users[k].email);
    EqualsIgnoringCaseFacts(email, users[k].email, users[i].email);
  }

  /** Appending a user whose address is not taken keeps the addresses unique. */
  lemma AppendFreshEmailKeepsUnique(users: seq<User>, u: User)
    requires EmailsUnique(users) && !EmailTaken(users, u.email)
    ensures EmailsUnique(users + [u])
  {
    var all := users + [u];
    forall i, j | 0 <= i < j < |all| ensures !EqualsIgnoringCase(all[i].email, all[j].email) {
      if j == |users| {
        assert !EmailMatches(u.email)(users[i]);
        EqualsIgnoringCaseFacts(u.email, users[i].email, u.email);
      }
    }
  }

  /** Removing users keeps the addresses unique. */
  lemma {:induction false} DeleteKeepsEmailsUnique(users: seq<User>, id: string)
    requires EmailsUnique(users)
    ensures EmailsUnique(Filter(users, NotUserId(id)))
  {
    if users != [] {
      var rest := users[1..];
      TailEmailsUnique(users);
      DeleteKeepsEmailsUnique(rest, id);
      if NotUserId(id)(users[0]) {
        HeadEmailFresh(users, Filter(rest, NotUserId(id)));
        assert Filter(users, NotUserId(id)) == [users[0]] + Filter(rest, NotUserId(id));
      }
    }
  }

  /** The users after the first keep their addresses unique. */
  lemma TailEmailsUnique(users: seq<User>)
    requires users != [] && EmailsUnique(users)
    ensures EmailsUnique(users[1..])
  {
    var rest := users[1..];
    forall i, j | 0 <= i < j < |rest| ensures !EqualsIgnoringCase(rest[i].email, rest[j].email) {
      assert rest[i] == users[i + 1] && rest[j] == users[j + 1];
    }
  }

  /** Putting the first user in front of unique users drawn from the others keeps addresses
      unique. */
  lemma HeadEmailFresh(users: seq<User>, kept: seq<User>)
    requires users != [] && EmailsUnique(users) && EmailsUnique(kept)
    requires forall k :: 0 <= k < |kept| ==> kept[k] in users[1..]
    ensures EmailsUnique([users[0]] + kept)
  {
    var all := [users[0]] + kept;
    forall j | 1 <= j < |all| ensures !EqualsIgnoringCase(all[0].email, all[j].email) {
      assert all[j] == kept[j - 1];
      var k :| 0 <= k < |users[1..]| && users[1..][k] == kept[j - 1];
      assert users[k + 1] == all[j];
    }
    forall i, j | 0 <= i < j < |all| ensures !EqualsIgnoringCase(all[i].email, all[j].email) {
      if i > 0 {
        assert all[i] == kept[i - 1] && all[j] == kept[j - 1];
      }
    }
  }

  /** The name and role an update may carry; an absent one is left as it was. */
  datatype UserPatch = UserPatch(name: Option<string>, role: Option<Role>)

  /** `{ ...user, ...data }`. */
  function ApplyPatch(u: User, patch: UserPatch): (r: User)
    ensures r.id == u.id && r.email == u.email && r.avatarUrl == u.avatarUrl
    ensures r.name == patch.name.GetOr(u.name) && r.role == patch.role.GetOr(u.role)
  {
    var named := if patch.name.Some? then u.(name := patch.name.value) else u;
    if patch.role.Some? then named.(role := patch.role.value) else named
  }

  function PatchIfId(id: string, patch: UserPatch): User -> User {
    (u: User) => if u.id == id then ApplyPatch(u, patch) else u
  }

  /** The user list after an update: every user with that id patched, the others untouched. */
  function PatchedUsers(users: seq<User>, id: string, patch: UserPatch): seq<User> {
    Map(users, PatchIfId(id, patch))
  }

  /** The user `updateUser` reports: the patched form of the last user with that id (the one
      the `map` callback wrote last). */
  function PatchedUser(users: seq<User>, id: string, patch: UserPatch): (r: Option<User>)
    ensures r.None? <==> forall i :: 0 <= i < |users| ==> users[i].id != id
    ensures r.Some? ==> exists i :: 0 <= i < |users| && users[i].id == id &&
                          r.value == ApplyPatch(users[i], patch) && PatchedUsers(users, id, patch)[i] == r.value &&
                          forall j :: i < j < |users| ==> users[j].id != id
  {
    match FindLast(users, UserWithId(id))
    case None => None
    case Some(u) => Some(ApplyPatch(u, patch))
  }

  /** An update keeps the list's length, ids and addresses, and changes only the users with
      that id. */
  lemma PatchedUsersSpec(users: seq<User>, id: string, patch: UserPatch)
    ensures var r := PatchedUsers(users, id, patch);
            |r| == |users| &&
            (forall i :: 0 <= i < |users| ==> r[i].id == users[i].id && r[i].email == users[i].email) &&
            (forall i :: 0 <= i < |users| && users[i].id != id ==> r[i] == users[i]) &&
            (forall i :: 0 <= i < |users| && users[i].id == id ==>
               r[i].name == patch.name.GetOr(users[i].name) && r[i].role == patch.role.GetOr(users[i].role))
    ensures EmailsUnique(users) ==> EmailsUnique(PatchedUsers(users, id, patch))
  {
  }

  /** Patching twice with the same patch is patching once. */
  lemma PatchIdempotent(users: seq<User>, id: string, patch: UserPatch)
    ensures PatchedUsers(PatchedUsers(users, id, patch), id, patch) == PatchedUsers(users, id, patch)
  {
    var once := PatchedUsers(users, id, patch);
    var twice := PatchedUsers(once, id, patch);
    forall i | 0 <= i < |users| ensures twice[i] == once[i] {
      if users[i].id == id {
        var u := users[i];
        assert ApplyPatch(ApplyPatch(u, patch), patch) == ApplyPatch(u, patch);
      }
    }
  }

  /** What a social login does to the list: the user is added unless someone with that id is
      already registered. */
  function MergeSocial(users: seq<User>, u: User): seq<User> {
    if Exists(users, UserWithId(u.id)) then users else users + [u]
  }

  /** After the merge exactly one more user or none is listed, some user has the new id, and
      merging the same user again changes nothing. */
  lemma MergeSocialSpec(users: seq<User>, u: User)
    ensures var r := MergeSocial(users, u);
            (exists i :: 0 <= i < |r| && r[i].id == u.id) &&
            r[..|users|] == users && |users| <= |r| <= |users| + 1 &&
            ((forall i :: 0 <= i < |users| ==> users[i].id != u.id) <==> r == users + [u])
    ensures MergeSocial(MergeSocial(users, u), u) == MergeSocial(users, u)
  {
    var r := MergeSocial(users, u);
    if !Exists(users, UserWithId(u.id)) {
      assert r[|users|].id == u.id;
      assert Exists(r, UserWithId(u.id));
    } else {
      var i :| 0 <= i < |users| && UserWithId(u.id)(users[i]);
      assert users[i].id == u.id;
    }
  }

  /** The merge goes by id only: a provider account with a new id but an address already
      registered is added beside it, so two users then share that address. */
  lemma SocialMergeIgnoresEmail()
    ensures var a := User("u1", "A", "", "a@x", Member);
            var b := User("u2", "A", "", "A@X", Member);
            EmailsUnique([a]) && !EmailsUnique(MergeSocial([a], b))
  {
    var a := User("u1", "A", "", "a@x", Member);
    var b := User("u2", "A", "", "A@X", Member);
    assert !UserWithId(b.id)(a);
    var r := MergeSocial([a], b);
    assert r == [a, b];
    assert Lower(a.email) == "a@x" && Lower(b.email) == "a@x";
    assert EqualsIgnoringCase(r[0].email, r[1].email);
  }

  /** `email.split('@')[0]`: the text before the first `@`, or the whole address. */
  function LocalPart(email: string): (r: string)
    ensures |r| <= |email| && r == email[..|r|] && '@' !in r
    ensures |r| < |email| ==> email[|r|] == '@'
  {
    SplitHead(email, '@');
    Split(email, '@')[0]
  }

  class AuthStore {
    var users: seq<User>
    var currentUser: Option<User>

    /** The registry as the page first starts: the seeded users, nobody signed in. */
    constructor ()
      ensures users == SeedUsers() && currentUser.None?
    {
      users := SeedUsers();
      currentUser := None;
    }

    /** `login`: the first user whose address matches ignoring case becomes the current one;
        with none, an error and no change. */
    method Login(email: string) returns (r: Result<User>)
      modifies this
      ensures users == old(users)
      ensures FindByEmail(users, email).None? ==>
                r == Failure("User not found.") && currentUser == old(currentUser)
      ensures FindByEmail(users, email).Some? ==>
                r == Success(FindByEmail(users, email).value) && currentUser == Some(r.value)
    {
      var found := FindByEmail(users, email);
      if found.Some? {
        currentUser := found;
        r := Success(found.value);
      } else {
        r := Failure("User not found.");
      }
    }

    /** The shared tail of the three social logins: merge by id, then sign the user in. */
    method SocialLogin(u: User) returns (r: User)
      modifies this
      ensures users == MergeSocial(old(users), u)
      ensures currentUser == Some(u) && r == u
    {
      users := MergeSocial(users, u);
      currentUser := Some(u);
      r := u;
    }

    /** `logout`. */
    method Logout()
      modifies this
      ensures currentUser.None? && users == old(users)
    {
      currentUser := None;
    }

    /** `signup`: a taken address is refused; otherwise a new member is appended and signed
        in. */
    method Signup(name: string, email: string, id: string, avatarUrl: string) returns (r: Result<User>)
      modifies this
      ensures EmailTaken(old(users), email) ==>
                r == Failure("An account with this email already exists.") &&
                users == old(users) && currentUser == old(currentUser)
      ensures !EmailTaken(old(users), email) ==>
                r == Success(User(id, name, avatarUrl, email, Member)) &&
                users == old(users) + [r.value] && currentUser == Some(r.value)
      ensures EmailsUnique(old(users)) ==> EmailsUnique(users)
    {
      if EmailTaken(users, email) {
        r := Failure("An account with this email already exists.");
      } else {
        var u := User(id, name, avatarUrl, email, Member);
        if EmailsUnique(users) {
          AppendFreshEmailKeepsUnique(users, u);
        }
        users := users + [u];
        currentUser := Some(u);
        r := Success(u);
      }
    }

    /** `inviteUser`: a taken address is refused; otherwise a user with the given role, named
        after the address's local part, is appended; who is signed in does not change. */
    method Invite(email: string, role: Role, id: string, avatarUrl: string) returns (r: Result<User>)
      modifies this
      ensures currentUser == old(currentUser)
      ensures EmailTaken(old(users), email) ==>
                r == Failure("A user with this email already exists.") && users == old(users)
      ensures !EmailTaken(old(users), email) ==>
                r == Success(User(id, LocalPart(email), avatarUrl, email, role)) &&
                users == old(users) + [r.value]
      ensures EmailsUnique(old(users)) ==> EmailsUnique(users)
    {
      if EmailTaken(users, email) {
        r := Failure("A user with this email already exists.");
      } else {
        var u := User(id, LocalPart(email), avatarUrl, email, role);
        if EmailsUnique(users) {
          AppendFreshEmailKeepsUnique(users, u);
        }
        users := users + [u];
        r := Success(u);
      }
    }

    /** `updateUser`: patches every user with that id; the signed-in user is refreshed when it
        is the one updated; with no such user, an error. */
    method UpdateUser(id: string, patch: UserPatch) returns (r: Result<User>)
      modifies this
      ensures users == PatchedUsers(old(users), id, patch)
      ensures PatchedUser(old(users), id, patch).None? ==>
                r == Failure("User not found for update.") && currentUser == old(currentUser)
      ensures PatchedUser(old(users), id, patch).Some? ==>
                r == Success(PatchedUser(old(users), id, patch).value) &&
                currentUser == (if old(currentUser).Some? && old(currentUser).value.id == id
                                then Some(r.value) else old(currentUser))
      ensures EmailsUnique(old(users)) ==> EmailsUnique(users)
    {
      var updated := PatchedUser(users, id, patch);
      PatchedUsersSpec(users, id, patch);
      users := PatchedUsers(users, id, patch);
      if updated.Some? {
        if currentUser.Some? && currentUser.value.id == id {
          currentUser := updated;
        }
        r := Success(updated.value);
      } else {
        r := Failure("User not found for update.");
      }
    }

    /** `deleteUser`: the signed-in user cannot delete themselves; otherwise every user with
        that id is removed. */
    method DeleteUser(id: string) returns (r: Result<()>)
      modifies this
      ensures currentUser == old(currentUser)
      ensures old(currentUser).Some? && old(currentUser).value.id == id ==>
                r == Failure("You cannot delete yourself.") && users == old(users)
      ensures !(old(currentUser).Some? && old(currentUser).value.id == id) ==>
                r == Success(()) && users == Filter(old(users), NotUserId(id))
      ensures EmailsUnique(old(users)) ==> EmailsUnique(users)
    {
      if currentUser.Some? && currentUser.value.id == id {
        r := Failure("You cannot delete yourself.");
      } else {
        if EmailsUnique(users) {
          DeleteKeepsEmailsUnique(users, id);
        }
        users := Filter(users, NotUserId(id));
        r := Success(());
      }
    }
  }

  /** Deleting removes exactly the users with that id and keeps the others in order. */
  lemma DeleteUserSpec(users: seq<User>, id: string)
    ensures var r := Filter(users, NotUserId(id));
            (forall u :: u in r <==> u in users && u.id != id) && IsSubsequence(r, users) &&
            (forall u :: multiset(r)[u] == if u.id != id then multiset(users)[u] else 0)
  {
    FilterIsSubsequence(users, NotUserId(id));
    forall u ensures multiset(Filter(users, NotUserId(id)))[u] ==
                     if u.id != id then multiset(users)[u] else 0 {
      FilterCount(users, NotUserId(id), u);
    }
    var r := Filter(users, NotUserId(id));
    forall u | u in users && u.id != id ensures u in r {
      var k :| 0 <= k < |users| && users[k] == u;
    }
  }
}
