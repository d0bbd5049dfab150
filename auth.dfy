/** Registration and login of lib/auth.ts, and the session's current user.
    bcrypt is abstracted as a function `hash` from password to stored hash;
    `bcrypt.compare(p, h)` holds exactly when `hash(p) == h`. */
module Auth {
  import opened Wrappers
  import opened Seqs
  import opened Schema

  /** `{ success, user?, error? }`. */
  datatype AuthResponse = AuthResponse(success: bool, user: Option<PublicUser>, error: Option<string>)

  const UserExists := "User already exists"
  const InvalidCredentials := "Invalid credentials"
  const RegistrationFailed := "Registration failed"
  const LoginFailed := "Login failed"

  function Failure(message: string): (r: AuthResponse)
    ensures !r.success && r.user.None? && r.error == Some(message)
  {
    AuthResponse(false, None, Some(message))
  }

  /** A users row with its password_hash column dropped. */
  function WithoutHash(u: User): (r: PublicUser)
    ensures r.id == u.id && r.email == u.email && r.name == u.name
    ensures r.profilePhoto == u.profilePhoto && r.createdAt == u.createdAt && r.updatedAt == u.updatedAt
  {
    PublicUser(u.id, u.email, u.name, u.profilePhoto, u.createdAt, u.updatedAt)
  }

  /** `SELECT * FROM users WHERE email = ?`, first row. */
  function FindByEmail(users: seq<User>, email: string): (r: Option<User>)
    ensures r.None? <==> forall u :: u in users ==> u.email != email
    ensures r.Some? ==> r.value in users && r.value.email == email
  {
    var found := Filter(users, UserWithEmail, email);
    if found == [] then None else Some(found[0])
  }

  /** The row `registerUser` inserts: the hash of the password, never the
      password itself. */
  function NewUser(users: seq<User>, email: string, passwordHash: string, name: string, now: nat): (r: User)
    ensures r.email == email && r.name == name && r.passwordHash == passwordHash
    ensures r.profilePhoto.None? && r.createdAt == now && r.updatedAt == now
    ensures forall i :: 0 <= i < |users| ==> users[i].id != r.id
  {
    assert forall i :: 0 <= i < |users| ==> UserIds(users)[i] == users[i].id;
    User(NextId(UserIds(users)), email, passwordHash, name, None, now, now)
  }

  /** `loginUser`: the user without hash when the email is known and the
      password matches; the same "Invalid credentials" answer for an unknown
      email and a wrong password; "Login failed" when the query fails. */
  function LoginUser(users: seq<User>, email: string, password: string,
                     hash: string -> string, fault: bool): (r: AuthResponse)
    ensures fault ==> r == Failure(LoginFailed)
    ensures !fault && FindByEmail(users, email).None? ==> r == Failure(InvalidCredentials)
    ensures r.success <==> !fault && FindByEmail(users, email).Some?
                            && hash(password) == FindByEmail(users, email).value.passwordHash
    ensures r.success ==> r.user == Some(WithoutHash(FindByEmail(users, email).value)) && r.error.None?
    ensures !r.success ==> r.user.None? && (r.error == Some(LoginFailed) || r.error == Some(InvalidCredentials))
  {
    if fault then Failure(LoginFailed)
    else match FindByEmail(users, email)
      case None => Failure(InvalidCredentials)
      case Some(u) =>
        if hash(password) != u.passwordHash then Failure(InvalidCredentials)
        else AuthResponse(true, Some(WithoutHash(u)), None)
  }

  /** An unknown email and a wrong password for a known one get the
      identical answer, so a caller cannot tell which emails are registered. */
  lemma LoginDoesNotRevealEmails(users: seq<User>, unknown: string, known: string,
                                 p: string, q: string, hash: string -> string)
    requires FindByEmail(users, unknown).None?
    requires FindByEmail(users, known).Some? && hash(q) != FindByEmail(users, known).value.passwordHash
    ensures LoginUser(users, unknown, p, hash, false) == LoginUser(users, known, q, hash, false)
  {
  }

  /** A user registered into a table without that email can log in with the
      same password and gets back the registered row. */
  lemma LoginAfterRegister(users: seq<User>, email: string, password: string, name: string,
                           hash: string -> string, now: nat)
    requires FindByEmail(users, email).None?
    ensures var row := NewUser(users, email, hash(password), name, now);
      LoginUser(users + [row], email, password, hash, false) == AuthResponse(true, Some(WithoutHash(row)), None)
  {
    var row := NewUser(users, email, hash(password), name, now);
    FoundAfterInsert(users, row);
  }

  /** After inserting a row for an email no other row has, looking the
      email up finds that row. */
  lemma FoundAfterInsert(users: seq<User>, row: User)
    requires FindByEmail(users, row.email).None?
    ensures FindByEmail(users + [row], row.email) == Some(row)
  {
    FilterNone(users, UserWithEmail, row.email);
    FilterAppend(users, [row], UserWithEmail, row.email);
    assert Filter([row], UserWithEmail, row.email) == [row] by {
      assert [row][..0] == [];
    }
  }

  /** The browser session: `sessionStorage["current_user"]`, which exists
      only where there is a window. */
  class Session {
    const hasWindow: bool
    var stored: Option<PublicUser>

    constructor(hasWindow: bool)
      ensures this.hasWindow == hasWindow && stored.None?
    {
      this.hasWindow := hasWindow;
      stored := None;
    }

    /** `getCurrentUser`: null without a window or without a stored user. */
    function GetCurrentUser(): (r: Option<PublicUser>)
      reads this
      ensures !hasWindow ==> r.None?
      ensures hasWindow ==> r == stored
    {
      if !hasWindow then None else stored
    }

    /** `setCurrentUser`: store the user, or remove the entry for null; does
      nothing without a window. */
    method SetCurrentUser(user: Option<PublicUser>)
      modifies this
      ensures hasWindow ==> GetCurrentUser() == user
      ensures !hasWindow ==> stored == old(stored)
    {
      if !hasWindow {
        return;
      }
      if user.Some? {
        stored := user;
      } else {
        stored := None;
      }
    }

    /** `logoutUser`: afterwards there is no current user. */
    method LogoutUser()
      modifies this
      ensures GetCurrentUser().None?
      ensures !hasWindow ==> stored == old(stored)
    {
      SetCurrentUser(None);
    }
  }
}
