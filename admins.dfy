/** The `admins(id, username, password)` table and the credential check. */
module Admins {

  datatype Credential = Credential(username: string, password: string)

  /** The account seeded into an empty table. */
  const DefaultAdmin := Credential("admin", "password")

  /**
   * `SELECT * FROM admins WHERE username = ? AND password = ?` followed by
   * `rs.next()`: the scan finds a row carrying both strings.
   */
  function Authenticate(admins: seq<Credential>, username: string, password: string): (found: bool)
    ensures found <==> exists i :: 0 <= i < |admins| &&
                                   admins[i].username == username && admins[i].password == password
  {
    if admins == [] then false
    else if admins[0].username == username && admins[0].password == password then true
    else
      var rest := Authenticate(admins[1..], username, password);
      assert forall i :: 1 <= i < |admins| ==> admins[i] == admins[1..][i - 1];
      rest
  }

  /** A freshly seeded table admits ("admin", "password") and nothing else. */
  lemma SeededTableAdmitsOnlyDefault(username: string, password: string)
    ensures Authenticate([DefaultAdmin], username, password)
            <==> username == "admin" && password == "password"
  {
  }

  class AdminTable {
    var rows: seq<Credential>

    constructor (existing: seq<Credential>)
      ensures rows == existing
    {
      rows := existing;
    }

    /**
     * `INSERT ... SELECT 'admin', 'password' WHERE NOT EXISTS (SELECT * FROM admins)`:
     * the default account is added only to an empty table.
     */
    method SeedDefaultAdmin()
      modifies this
      ensures rows == if old(rows) == [] then [DefaultAdmin] else old(rows)
      ensures rows != []
      ensures forall u, p :: Authenticate(old(rows), u, p) ==> Authenticate(rows, u, p)
    {
      if rows == [] {
        rows := [DefaultAdmin];
      }
    }
  }
}
