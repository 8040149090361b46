/**
 * pages/Login.tsx, `handleSubmit`: registration refuses an email that is
 * already stored and otherwise appends the new user; login looks up the
 * first user whose email and password both match. The random id of a new
 * user is a parameter; the session user is what is handed to `onLogin`.
 */
module Login {
  import opened Wrappers
  import opened Seqs
  import opened Types
  import opened Store

  /** What the form submission ends with: a session user, or an alert. */
  datatype SubmitOutcome = SignedIn(user: User) | Alerted(message: string)

  const DuplicateEmailMessage := "Email already exists"
  const InvalidCredentialsMessage := "Invalid credentials"

  /** `u => u.email === email` */
  function EmailIs(email: string): User -> bool {
    (u: User) => u.email == email
  }

  /** `u => u.email === email && u.password === password`; a user without a password never matches. */
  function CredentialsAre(email: string, password: string): User -> bool {
    (u: User) => u.email == email && u.password == Some(password)
  }

  /** `users.find(u => u.email === email)` */
  function FindByEmail(users: seq<User>, email: string): (r: Option<User>)
    ensures r.Some? <==> exists i :: 0 <= i < |users| && users[i].email == email
    ensures r.Some? ==> r.value in users && r.value.email == email
  {
    Find(users, EmailIs(email))
  }

  /** The credential match: found exactly when some stored user matches, and then it is the first one. */
  function FindByCredentials(users: seq<User>, email: string, password: string): (r: Option<User>)
    ensures r.Some? <==> exists i :: 0 <= i < |users| && users[i].email == email && users[i].password == Some(password)
    ensures r.Some? ==> exists i ::
      && 0 <= i < |users| && users[i] == r.value
      && users[i].email == email && users[i].password == Some(password)
      && forall j :: 0 <= j < i ==> !(users[j].email == email && users[j].password == Some(password))
  {
    Find(users, CredentialsAre(email, password))
  }

  /** No two stored users share an email. */
  ghost predicate EmailsUnique(users: seq<User>) {
    forall i, j :: 0 <= i < j < |users| ==> users[i].email != users[j].email
  }

  /** The user a successful registration creates from the form fields. */
  function NewUser(id: string, email: string, password: string, name: string, role: UserRole): (u: User)
    ensures CredentialsAre(email, password)(u) && EmailIs(email)(u)
    ensures u.id == id && u.name == name && u.role == role && u.profile == None
  {
    User(id, name, email, role, Some(password), None)
  }

  /** Appending a user whose email is not yet stored keeps emails unique. */
  lemma RegisterKeepsEmailsUnique(users: seq<User>, u: User)
    requires EmailsUnique(users)
    requires FindByEmail(users, u.email).None?
    ensures EmailsUnique(users + [u])
  {
    var us := users + [u];
    forall i, j | 0 <= i < j < |us| ensures us[i].email != us[j].email {
      if j == |users| {
        assert us[i] == users[i];
      }
    }
  }

  /**
   * The form submission against the store. `registering` is the form's mode,
   * `newId` the random id a new user would get.
   */
  method HandleSubmit(store: Db, registering: bool, email: string, password: string,
                      name: string, role: UserRole, newId: string)
      returns (outcome: SubmitOutcome)
    modifies store
    ensures store.activitiesSlot == old(store.activitiesSlot)
    ensures registering && FindByEmail(old(store.Users()), email).Some? ==>
      outcome == Alerted(DuplicateEmailMessage) && store.usersSlot == old(store.usersSlot)
    ensures registering && FindByEmail(old(store.Users()), email).None? ==>
      var u := NewUser(newId, email, password, name, role);
      outcome == SignedIn(u) && store.Users() == old(store.Users()) + [u]
    ensures !registering ==> store.usersSlot == old(store.usersSlot)
    ensures !registering ==>
      outcome == (match FindByCredentials(old(store.Users()), email, password)
                  case Some(u) => SignedIn(u)
                  case None => Alerted(InvalidCredentialsMessage))
    ensures EmailsUnique(old(store.Users())) ==> EmailsUnique(store.Users())
  {
    var users := store.GetUsers();
    if registering {
      if FindByEmail(users, email).Some? {
        outcome := Alerted(DuplicateEmailMessage);
        return;
      }
      var u := NewUser(newId, email, password, name, role);
      if EmailsUnique(users) {
        RegisterKeepsEmailsUnique(users, u);
      }
      store.SaveUser(u);
      outcome := SignedIn(u);
    } else {
      var found := FindByCredentials(users, email, password);
      if found.Some? {
        outcome := SignedIn(found.value);
      } else {
        outcome := Alerted(InvalidCredentialsMessage);
      }
    }
  }
}
