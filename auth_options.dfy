/** The credential providers and session callbacks of the authentication
    configuration: an admin provider and a student provider check an id and a
    plain-text password against the stored record, and the `jwt` and
    `session` callbacks carry the signed-in user's id and role into the
    session the pages see. */
module AuthOptions {
  import opened Common
  import opened Records

  datatype Role = AdminRole | StudentRole
  {
    /** The role string stored in the token. */
    function Name(): (s: string)
      ensures s == "admin" || s == "student"
      ensures s == "admin" <==> this.AdminRole?
      ensures s == "student" <==> this.StudentRole?
    {
      match this
      case AdminRole => "admin"
      case StudentRole => "student"
    }
  }

  /** The two credential providers. */
  datatype Provider = AdminLogin | StudentLogin

  /** The submitted credentials; the id is `admin_id` or `student_id`
      according to the provider. Each field may be missing. */
  datatype Credentials = Credentials(id: Option<string>, password: Option<string>)

  /** What `authorize` returns on success. */
  datatype AuthUser = AuthUser(id: string, name: string, role: Role)

  /** The `maxAge` of a session: thirty days, in seconds. */
  function SessionMaxAge(): (seconds: nat)
    ensures seconds == 2592000
  {
    30 * 24 * 60 * 60
  }

  /** The admin provider's `authorize`. `admins` is the table looked up by
      `admin_id`. */
  function AuthorizeAdmin(admins: map<string, Admin>, c: Credentials): (r: Option<AuthUser>)
    ensures r.Some? <==>
      Truthy(c.id) && Truthy(c.password)
      && c.id.value in admins && admins[c.id.value].passwordHash == c.password.value
    ensures r.Some? ==>
      r.value == AuthUser(admins[c.id.value].adminId, admins[c.id.value].name, AdminRole)
  {
    if !Truthy(c.id) || !Truthy(c.password) then None
    else if c.id.value !in admins then None
    else
      var admin := admins[c.id.value];
      if admin.passwordHash != c.password.value then None
      else Some(AuthUser(admin.adminId, admin.name, AdminRole))
  }

  /** The student provider's `authorize`. `students` is the table looked up
      by `student_id`. */
  function AuthorizeStudent(students: map<string, Student>, c: Credentials): (r: Option<AuthUser>)
    ensures r.Some? <==>
      Truthy(c.id) && Truthy(c.password)
      && c.id.value in students && students[c.id.value].passwordHash == c.password.value
    ensures r.Some? ==>
      r.value == AuthUser(students[c.id.value].studentId, students[c.id.value].name, StudentRole)
  {
    if !Truthy(c.id) || !Truthy(c.password) then None
    else if c.id.value !in students then None
    else
      var student := students[c.id.value];
      if student.passwordHash != c.password.value then None
      else Some(AuthUser(student.studentId, student.name, StudentRole))
  }

  function Authorize(p: Provider, admins: map<string, Admin>, students: map<string, Student>,
                     c: Credentials): (r: Option<AuthUser>)
    ensures p.AdminLogin? ==> r == AuthorizeAdmin(admins, c)
    ensures p.StudentLogin? ==> r == AuthorizeStudent(students, c)
  {
    if p.AdminLogin? then AuthorizeAdmin(admins, c) else AuthorizeStudent(students, c)
  }

  /** A table whose keys are the ids its records carry, as a unique-key
      lookup returns them. */
  ghost predicate AdminsKeyed(admins: map<string, Admin>) {
    forall k :: k in admins ==> admins[k].adminId == k
  }

  ghost predicate StudentsKeyed(students: map<string, Student>) {
    forall k :: k in students ==> students[k].studentId == k
  }

  /** A successful sign-in yields the id that was submitted and the role of
      the provider that was used. */
  lemma AuthorizedIdentity(p: Provider, admins: map<string, Admin>,
                           students: map<string, Student>, c: Credentials)
    requires AdminsKeyed(admins) && StudentsKeyed(students)
    requires Authorize(p, admins, students, c).Some?
    ensures Authorize(p, admins, students, c).value.id == c.id.value
    ensures Authorize(p, admins, students, c).value.role == if p.AdminLogin? then AdminRole else StudentRole
  {
  }

  /** Missing or empty credentials are refused whatever the tables hold. */
  lemma MissingCredentialsRefused(p: Provider, admins: map<string, Admin>,
                                  students: map<string, Student>, c: Credentials)
    requires !Truthy(c.id) || !Truthy(c.password)
    ensures Authorize(p, admins, students, c) == None
  {
  }

  /** An unknown admin id and a known one with a wrong password produce the
      same result, so a caller cannot tell which of the two happened. */
  lemma AdminFailuresIndistinguishable(admins: map<string, Admin>, unknown: Credentials,
                                       wrong: Credentials)
    requires Truthy(unknown.password) && Truthy(unknown.id) && unknown.id.value !in admins
    requires Truthy(wrong.id) && Truthy(wrong.password) && wrong.id.value in admins
    requires admins[wrong.id.value].passwordHash != wrong.password.value
    ensures AuthorizeAdmin(admins, unknown) == AuthorizeAdmin(admins, wrong) == None
  {
  }

  lemma StudentFailuresIndistinguishable(students: map<string, Student>, unknown: Credentials,
                                         wrong: Credentials)
    requires Truthy(unknown.password) && Truthy(unknown.id) && unknown.id.value !in students
    requires Truthy(wrong.id) && Truthy(wrong.password) && wrong.id.value in students
    requires students[wrong.id.value].passwordHash != wrong.password.value
    ensures AuthorizeStudent(students, unknown) == AuthorizeStudent(students, wrong) == None
  {
  }

  /** The JWT: the claims the callbacks write. */
  class Token {
    var userId: Option<string>
    var role: Option<Role>

    constructor ()
      ensures userId == None && role == None
    {
      userId := None;
      role := None;
    }

    /** `callbacks.jwt`: copies the user's id and role when a user is
        present (at sign-in) and otherwise keeps the token as it is. */
    method Jwt(user: Option<AuthUser>)
      modifies this
      ensures user.Some? ==> userId == Some(user.value.id) && role == Some(user.value.role)
      ensures user.None? ==> userId == old(userId) && role == old(role)
    {
      if user.Some? {
        userId := Some(user.value.id);
        role := Some(user.value.role);
      }
    }
  }

  /** `session.user` as the pages see it. */
  class SessionUser {
    var id: Option<string>
    var role: Option<Role>
    var name: Option<string>

    constructor (name: Option<string>)
      ensures this.name == name && id == None && role == None
    {
      this.name := name;
      id := None;
      role := None;
    }
  }

  /** `callbacks.session`: sets the session user's id and role from the token. */
  method SessionCallback(user: SessionUser, token: Token)
    modifies user
    ensures user.id == token.userId && user.role == token.role
    ensures user.name == old(user.name)
  {
    user.id := token.userId;
    user.role := token.role;
  }

  /** A sign-in followed by later requests: `authorize`, then `jwt` with the
      user, then `jwt` once more without one (a later request decoding the
      same token), then `session`. The session ends with the authorised id
      and role; a refused sign-in issues no token and leaves no identity. */
  method SignIn(p: Provider, admins: map<string, Admin>, students: map<string, Student>,
                c: Credentials)
    returns (user: Option<AuthUser>, sessionId: Option<string>, sessionRole: Option<Role>)
    ensures user == Authorize(p, admins, students, c)
    ensures user.Some? ==> sessionId == Some(user.value.id) && sessionRole == Some(user.value.role)
    ensures user.None? ==> sessionId == None && sessionRole == None
    ensures user.Some? && p.AdminLogin? ==>
      sessionId == Some(admins[c.id.value].adminId) && sessionRole == Some(AdminRole)
    ensures user.Some? && p.StudentLogin? ==>
      sessionId == Some(students[c.id.value].studentId) && sessionRole == Some(StudentRole)
  {
    user := Authorize(p, admins, students, c);
    if user.None? {
      return user, None, None;
    }
    var token := new Token();
    token.Jwt(user);
    token.Jwt(None);
    var session := new SessionUser(Some(user.value.name));
    SessionCallback(session, token);
    sessionId, sessionRole := session.id, session.role;
  }
}
