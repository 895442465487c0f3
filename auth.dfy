/** The users table: the UNIQUE email rule that create_user runs into, the
    superadmin seeded by create_superadmin, and the credential check of login. */
module Auth {
  import opened Sql
  import opened Schema

  type UserRows = seq<Row<UserData>>

  const ADMIN_EMAIL := "admin@site.com"

  function WithEmail(email: string): Row<UserData> -> bool {
    (x: Row<UserData>) => x.data.email == email
  }

  /** SELECT ... FROM users WHERE email = ? finds a row. */
  predicate HasEmail(rows: UserRows, email: string) {
    Find(rows, WithEmail(email)).Some?
  }

  /** The UNIQUE constraint on users.email. */
  predicate UniqueEmails(rows: UserRows) {
    forall i, j :: 0 <= i < j < |rows| ==> rows[i].data.email != rows[j].data.email
  }

  /** An INSERT that would pass the UNIQUE constraint keeps it satisfied. */
  lemma InsertNewEmailKeepsUnique(t: Table<UserData>, d: UserData)
    requires UniqueEmails(t.rows) && !HasEmail(t.rows, d.email)
    ensures UniqueEmails(Insert(t, d).rows)
  {
    var r := Insert(t, d).rows;
    forall i, j | 0 <= i < j < |r| ensures r[i].data.email != r[j].data.email {
      if j == |t.rows| {
        assert !WithEmail(d.email)(t.rows[i]);
      } else {
        assert r[i] == t.rows[i] && r[j] == t.rows[j];
      }
    }
  }

  /** The account create_superadmin inserts. */
  function SuperAdmin(hashed: string): UserData {
    UserData("Super", "Admin", ADMIN_EMAIL, "Adresse Admin", hashed, true)
  }

  /** create_superadmin: insert the admin account unless its email is
      already registered. */
  function SeedAdmin(t: Table<UserData>, hashed: string): (r: Table<UserData>)
    ensures HasEmail(r.rows, ADMIN_EMAIL)
    ensures HasEmail(t.rows, ADMIN_EMAIL) ==> r == t
    ensures !HasEmail(t.rows, ADMIN_EMAIL) ==> r == Insert(t, SuperAdmin(hashed))
    ensures UniqueEmails(t.rows) ==> UniqueEmails(r.rows)
  {
    if HasEmail(t.rows, ADMIN_EMAIL) then t
    else
      var r := Insert(t, SuperAdmin(hashed));
      assert WithEmail(ADMIN_EMAIL)(r.rows[|t.rows|]);
      if UniqueEmails(t.rows) then InsertNewEmailKeepsUnique(t, SuperAdmin(hashed)); r else r
  }

  /** Running create_superadmin again, with any fresh hash, changes nothing. */
  lemma SeedAdminIdempotent(t: Table<UserData>, h1: string, h2: string)
    ensures SeedAdmin(SeedAdmin(t, h1), h2) == SeedAdmin(t, h1)
  {
  }

  /** login's check: the row with the submitted email, when
      check_password_hash accepts the submitted password against its hash. */
  function Authenticate(rows: UserRows, email: string, password: string, check: (string, string) -> bool): (r: Option<Row<UserData>>)
    ensures r.Some? ==> r.value in rows && r.value.data.email == email && check(r.value.data.password, password)
  {
    match Find(rows, WithEmail(email))
    case Some(u) => if check(u.data.password, password) then Some(u) else None
    case None => None
  }

  /** With unique emails, login succeeds exactly when some account has that
      email and a hash the password checks against. */
  lemma AuthenticateIff(rows: UserRows, email: string, password: string, check: (string, string) -> bool)
    requires UniqueEmails(rows)
    ensures Authenticate(rows, email, password, check).Some? <==>
      exists i :: 0 <= i < |rows| && rows[i].data.email == email && check(rows[i].data.password, password)
  {
    if exists i :: 0 <= i < |rows| && rows[i].data.email == email && check(rows[i].data.password, password) {
      var i :| 0 <= i < |rows| && rows[i].data.email == email && check(rows[i].data.password, password);
      forall j | 0 <= j < i ensures !WithEmail(email)(rows[j]) {
        assert rows[j].data.email != rows[i].data.email;
      }
      FindFirst(rows, WithEmail(email), i);
    }
  }
}
