/** The admin login API route: it requires an email and a password, finds the
    first admin whose `name` equals the email, compares the password in plain
    text and answers with the admin record stripped of its password. */
module AdminLoginRoute {
  import opened Common
  import opened Records

  const MissingFieldsError := "Email and password are required"
  const InvalidCredentials := "Invalid credentials"
  const InternalError := "Internal server error"

  /** The JSON body; each field may be missing. */
  datatype LoginBody = LoginBody(email: Option<string>, password: Option<string>)

  /** An admin record without its `passwordHash`. */
  datatype PublicAdmin = PublicAdmin(adminId: string, name: string)

  /** `const { passwordHash, ...adminData } = admin`. */
  function StripPassword(a: Admin): (p: PublicAdmin)
    ensures p.adminId == a.adminId && p.name == a.name
  {
    PublicAdmin(a.adminId, a.name)
  }

  /** The stripped record does not depend on the password in any way. */
  lemma StripPasswordForgetsHash(a: Admin, h: string)
    ensures StripPassword(a.(passwordHash := h)) == StripPassword(a)
  {
  }

  /** `findFirst({ where: { name } })`: the index of the first admin whose
      `name` is `name`, or None when there is none. */
  function FindFirstByName(admins: seq<Admin>, name: string): (r: Option<nat>)
    ensures r.Some? ==> r.value < |admins| && admins[r.value].name == name
    ensures r.Some? ==> forall j :: 0 <= j < r.value ==> admins[j].name != name
    ensures r.None? <==> forall j :: 0 <= j < |admins| ==> admins[j].name != name
  {
    if admins == [] then None
    else if admins[0].name == name then Some(0)
    else
      match FindFirstByName(admins[1..], name)
      case None => None
      case Some(i) => Some(i + 1)
  }

  /** `POST`. `body` is None when the request body cannot be parsed as JSON;
      `admins` is the admin table in the order the query visits it, or None
      when the query throws. */
  function Post(body: Option<LoginBody>, admins: Option<seq<Admin>>): (r: Response<PublicAdmin>)
    ensures body.None? ==> r == Fail(500, "Internal server error")
    // missing fields are refused before the table is consulted
    ensures body.Some? && (!Truthy(body.value.email) || !Truthy(body.value.password)) ==>
      r == Fail(400, "Email and password are required")
    ensures body.Some? && Truthy(body.value.email) && Truthy(body.value.password) && admins.None? ==>
      r == Fail(500, "Internal server error")
    // success iff the first admin with that name has that password
    ensures r.Ok? <==>
      body.Some? && Truthy(body.value.email) && Truthy(body.value.password) && admins.Some?
      && (exists i :: 0 <= i < |admins.value| && admins.value[i].name == body.value.email.value
            && admins.value[i].passwordHash == body.value.password.value
            && forall j :: 0 <= j < i ==> admins.value[j].name != body.value.email.value)
    ensures r.Ok? ==>
      exists a :: a in admins.value && a.name == body.value.email.value
        && a.passwordHash == body.value.password.value && r.body == StripPassword(a)
    // the returned admin is the first one with that name
    ensures r.Ok? ==>
      var found := FindFirstByName(admins.value, body.value.email.value);
      found.Some? && r.body == StripPassword(admins.value[found.value])
    ensures r.Fail? ==> r.status in {400, 401, 500}
    ensures r.Fail? && r.status == 401 ==> r.error == "Invalid credentials"
  {
    if body.None? then Fail(500, InternalError)
    else if !Truthy(body.value.email) || !Truthy(body.value.password) then Fail(400, MissingFieldsError)
    else if admins.None? then Fail(500, InternalError)
    else
      match FindFirstByName(admins.value, body.value.email.value)
      case None => Fail(401, InvalidCredentials)
      case Some(i) =>
        if admins.value[i].passwordHash != body.value.password.value then Fail(401, InvalidCredentials)
        else Ok(StripPassword(admins.value[i]))
  }

  /** An email no admin has and a wrong password for an existing admin give
      the same response. */
  lemma FailuresIndistinguishable(admins: seq<Admin>, unknown: LoginBody, wrong: LoginBody)
    requires Truthy(unknown.email) && Truthy(unknown.password)
    requires forall j :: 0 <= j < |admins| ==> admins[j].name != unknown.email.value
    requires Truthy(wrong.email) && Truthy(wrong.password)
    requires forall j :: 0 <= j < |admins| && admins[j].name == wrong.email.value ==>
      admins[j].passwordHash != wrong.password.value
    ensures Post(Some(unknown), Some(admins)) == Post(Some(wrong), Some(admins))
            == Fail(401, "Invalid credentials")
  {
  }

  /** With names unique in the table, the response for a correct pair is that
      admin's record without the password. */
  lemma UniqueNameSuccess(admins: seq<Admin>, i: nat, password: string)
    requires i < |admins| && admins[i].name != "" && password != ""
    requires forall j :: 0 <= j < |admins| && j != i ==> admins[j].name != admins[i].name
    requires admins[i].passwordHash == password
    ensures Post(Some(LoginBody(Some(admins[i].name), Some(password))), Some(admins))
         == Ok(PublicAdmin(admins[i].adminId, admins[i].name))
  {
  }
}
