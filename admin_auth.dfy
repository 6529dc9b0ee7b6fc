/** The administrator gate placed in front of admin-only routes. */
module AdminAuth {

  import opened Common
  import opened UserAuth

  /** Go on to the next handler, or stop with this response. */
  datatype Gate = Next | Deny(status: int, message: string)

  /** Exactly the callers whose role is the string "admin" pass. */
  function AdminGate(user: Claims): (r: Gate)
    ensures r.Next? <==> user.role == Some("admin")
    ensures r.Deny? ==> r.status == FORBIDDEN && r.message == "Access denied. Admins only."
  {
    if user.role != Some("admin") then Deny(FORBIDDEN, "Access denied. Admins only.") else Next
  }

  /** The gate reads nothing of the caller but the role. */
  lemma AdminGateReadsOnlyRole(a: Claims, b: Claims)
    requires a.role == b.role
    ensures AdminGate(a) == AdminGate(b)
  {
  }

  /** The comparison is exact: other spellings and a missing role are denied. */
  lemma AdminGateIsExact(id: Id)
    ensures AdminGate(Claims(id, Some("Admin"))).Deny?
    ensures AdminGate(Claims(id, Some("admin "))).Deny?
    ensures AdminGate(Claims(id, None)).Deny?
    ensures AdminGate(Claims(id, Some("admin"))) == Next
  {
  }
}
