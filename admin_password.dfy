/** The helper that checks an admin's password: one unique lookup by `id`,
    a null check and a plain-text equality. */
module AdminPassword {
  import opened Records

  /** `getAdminPassword`. `admins` is the admin table looked up by `id`; the
      function only reads it. */
  function GetAdminPassword(admins: map<string, Admin>, username: string, password: string): (ok: bool)
    ensures ok <==> username in admins && admins[username].passwordHash == password
  {
    if username !in admins then false
    else admins[username].passwordHash == password
  }

  /** An unknown username is refused whatever password is given. */
  lemma UnknownUsernameRefused(admins: map<string, Admin>, username: string, p1: string, p2: string)
    requires username !in admins
    ensures !GetAdminPassword(admins, username, p1) && !GetAdminPassword(admins, username, p2)
  {
  }

  /** For a known username exactly the stored password is accepted. */
  lemma OnlyStoredPasswordAccepted(admins: map<string, Admin>, username: string, password: string)
    requires username in admins
    ensures GetAdminPassword(admins, username, password) <==> password == admins[username].passwordHash
  {
  }

  /** Only the record looked up matters: changing any other admin does not
      change the answer. */
  lemma DependsOnLookedUpRecordOnly(admins: map<string, Admin>, other: string, a: Admin,
                                    username: string, password: string)
    requires other != username
    ensures GetAdminPassword(admins[other := a], username, password)
         == GetAdminPassword(admins, username, password)
  {
  }
}
