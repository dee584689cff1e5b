/**
 * The users table that auth/register.php inserts into and auth/Login.php reads.
 */
module Accounts {

  /** A users row: the stored e-mail is the cleaned one, the password its hash. */
  datatype User = User(name: string, email: string, passwordHash: string, role: string)

  /** No two rows share an e-mail address. */
  predicate UniqueEmails(users: map<int, User>) {
    forall i, j :: i in users && j in users && users[i].email == users[j].email ==> i == j
  }

  /** The row holding `email`, if there is one. */
  predicate HasEmail(users: map<int, User>, email: string) {
    exists id :: id in users && users[id].email == email
  }

  /** The users table, with the next SERIAL id. */
  class UserTable {
    var users: map<int, User>
    var nextUser: int

    ghost predicate Valid()
      reads this
    {
      && 1 <= nextUser
      && (forall id :: id in users ==> 1 <= id < nextUser)
      && UniqueEmails(users)
    }

    constructor ()
      ensures Valid() && users == map[] && nextUser == 1
    {
      users := map[];
      nextUser := 1;
    }
  }

  /** Adding a row with a fresh e-mail keeps e-mails unique. */
  lemma InsertKeepsUnique(users: map<int, User>, id: int, u: User)
    requires UniqueEmails(users) && id !in users && !HasEmail(users, u.email)
    ensures UniqueEmails(users[id := u])
  {
  }
}
