/**
 * Who is calling. The session lookup itself belongs to the auth provider;
 * a handler sees either no user or a user with a profile role.
 */
module Auth {
  import opened Wrappers

  datatype Role = UserRole | AdminRole

  datatype Caller = Caller(id: string, role: Role)

  /** `isAdmin()`: a signed-in caller whose profile role is `admin`. */
  predicate IsAdmin(caller: Option<Caller>) {
    caller.Some? && caller.value.role == AdminRole
  }
}
