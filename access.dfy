/** Who may change the catalog and close tickets. */
module Access {

  /** The id of the administrator role (`CARGO_ADMIN_ID`). */
  const AdminRoleId: int := 1441627740569735298

  /**
    `is_admin(member)`: some role the member holds has the administrator id.
    A member is given by the ids of its roles, in the order the platform lists them.
   */
  function IsAdmin(roles: seq<int>): (b: bool)
    ensures b <==> AdminRoleId in roles
  {
    |roles| > 0 && (roles[0] == AdminRoleId || IsAdmin(roles[1..]))
  }
}
