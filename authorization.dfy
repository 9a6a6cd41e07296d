/**
 * Role-based authorization of a call (pkg/utils/authorize_user.go). The role is
 * read from the call context under the key `ContextKey("role")`; the call is
 * admitted when that role is one of the allowed roles.
 */
module Authorization {
  import opened Wrappers

  /** A context key: one of type `utils.ContextKey`, or a key of any other Go type. */
  datatype Key = ContextKey(name: string) | ForeignKey(typeId: nat, name: string)

  /** A context value: a string, or a value of any other type. */
  datatype Value = StringValue(s: string) | OtherValue

  /** The values visible through `ctx.Value`. */
  type Context = map<Key, Value>

  const RoleKey: Key := ContextKey("role")
  const RoleNotFound: string := "user not authorized for access: role not found"
  const NotAuthorized: string := "user not authorized for access"

  /** `ctx.Value(ContextKey("role")).(string)`: present only when the value stored under the role key is a string. */
  function Role(ctx: Context): Option<string> {
    if RoleKey in ctx && ctx[RoleKey].StringValue? then Some(ctx[RoleKey].s) else None
  }

  /**
   * The role is the string stored under the role key: storing a string sets it,
   * while storing a value of another type or removing the key leaves no role.
   */
  lemma RoleIsStoredString(ctx: Context, s: string)
    ensures Role(ctx[RoleKey := StringValue(s)]) == Some(s)
    ensures Role(ctx[RoleKey := OtherValue]) == None
    ensures Role(ctx - {RoleKey}) == None
  {
  }

  /**
   * `AuthorizeUser`: None is the nil error (admitted); Some carries the error text.
   * Matching is exact string equality against each allowed role.
   */
  function AuthorizeUser(ctx: Context, allowedRoles: seq<string>): (r: Option<string>)
    ensures r.None? <==> Role(ctx).Some? && exists i :: 0 <= i < |allowedRoles| && allowedRoles[i] == Role(ctx).value
    ensures Role(ctx).None? ==> r == Some(RoleNotFound)
    ensures Role(ctx).Some? && r.Some? ==> r == Some(NotAuthorized)
    ensures |allowedRoles| == 0 ==> r.Some?
  {
    match Role(ctx)
    case None => Some(RoleNotFound)
    case Some(role) =>
      if exists i :: 0 <= i < |allowedRoles| && allowedRoles[i] == role then None
      else Some(NotAuthorized)
  }

  /** Only the set of allowed roles matters: not their order, not repetitions. */
  lemma AuthorizeUserOrderIndependent(ctx: Context, a: seq<string>, b: seq<string>)
    requires forall x :: x in a <==> x in b
    ensures AuthorizeUser(ctx, a) == AuthorizeUser(ctx, b)
  {
    if Role(ctx).Some? {
      var role := Role(ctx).value;
      assert (exists i :: 0 <= i < |a| && a[i] == role) <==> role in a;
      assert (exists i :: 0 <= i < |b| && b[i] == role) <==> role in b;
    }
  }

  /** Nothing but the role key is read: other context entries do not change the outcome. */
  lemma AuthorizeUserReadsOnlyRole(ctx: Context, k: Key, v: Value, allowedRoles: seq<string>)
    requires k != RoleKey
    ensures AuthorizeUser(ctx[k := v], allowedRoles) == AuthorizeUser(ctx, allowedRoles)
  {
    assert Role(ctx[k := v]) == Role(ctx);
  }

  /** A role stored under a plain string key "role" (a key of another type) is not found. */
  lemma AuthorizeUserNeedsContextKeyType(typeId: nat, role: string, allowedRoles: seq<string>)
    ensures AuthorizeUser(map[ForeignKey(typeId, "role") := StringValue(role)], allowedRoles) == Some(RoleNotFound)
  {
  }

  /** Matching is case-sensitive: "Admin" is not admitted by the allowed role "admin". */
  lemma AuthorizeUserIsCaseSensitive()
    ensures AuthorizeUser(map[RoleKey := StringValue("Admin")], ["admin"]) == Some(NotAuthorized)
  {
    var ctx := map[RoleKey := StringValue("Admin")];
    assert Role(ctx) == Some("Admin");
    assert "admin"[0] != "Admin"[0];
  }
}
