/** The role gates that follow `protect`. The request's principal is the signed-in user,
    if any, with the name of their populated role, if any. */
module AuthMiddleware {
  import opened Common

  const AdminRole := "Admin"
  const WarehouseRole := "Nhân viên Kho"

  /** `req.user` and `req.user.role.name`: None when no user is attached; Some(None) when
      the user's role did not resolve. */
  type Principal = Option<Option<string>>

  /** The role name of a principal that has one. */
  predicate HasRole(user: Principal, name: string) {
    user.Some? && user.value.Some? && user.value.value == name
  }

  /** `isAdmin`: only a user whose role is named exactly "Admin" passes; everything else is
      refused with 403. An administrator also passes the warehouse gate. */
  function IsAdmin(user: Principal): (r: Outcome)
    ensures r == Pass <==> user.Some? && user.value.Some? && user.value.value == AdminRole
    ensures r.Fail? ==> r.error == Forbidden
    ensures r == Pass ==> IsWarehouseManager(user) == Pass
  {
    if HasRole(user, AdminRole) then Pass else Fail(Forbidden)
  }

  /** `isWarehouseManager`: a user whose role is named "Admin" or "Nhân viên Kho" passes;
      a missing user, a missing role or any other name is refused with 403. */
  function IsWarehouseManager(user: Principal): (r: Outcome)
    ensures r == Pass <==>
      user.Some? && user.value.Some? && (user.value.value == AdminRole || user.value.value == WarehouseRole)
    ensures r.Fail? ==> r.error == Forbidden
    ensures user.None? || user.value.None? ==> r == Fail(Forbidden)
  {
    if HasRole(user, AdminRole) || HasRole(user, WarehouseRole) then Pass else Fail(Forbidden)
  }

  /** The warehouse gate admits exactly one role that the admin gate refuses. */
  lemma WarehouseStaffAreNotAdmins(user: Principal)
    ensures IsWarehouseManager(user) == Pass && IsAdmin(user).Fail? <==> HasRole(user, WarehouseRole)
  {
    assert AdminRole != WarehouseRole by {
      assert AdminRole[0] != WarehouseRole[0];
    }
  }
}
