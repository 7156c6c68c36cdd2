/**
 * The three role guards. Each looks at `req.user` (absent or null when no
 * user was attached) and either passes the request on to `next` or answers
 * 403 with its own message.
 */
module RoleMiddleware {
  import opened Common
  import opened UserModel

  /** What a middleware does with a request: pass it on, or answer it. */
  datatype Decision = Next | Deny(failure: Failure)

  const AdminDenied: string := "Access denied. Admin privileges required."
  const SellerDenied: string := "Access denied. Seller privileges required."
  const BuyerDenied: string := "Access denied. Buyer privileges required."

  /** The guard for one role, with the message it denies with. */
  function RequireRole(user: Option<UserView>, role: Role, denied: string): (d: Decision)
    ensures d.Next? <==> user.Some? && user.value.role == role
    ensures d.Deny? ==> d.failure == Failure(403, denied)
  {
    if user.Some? && user.value.role == role then Next else Deny(Failure(403, denied))
  }

  /** `isAdmin`. */
  function IsAdmin(user: Option<UserView>): (d: Decision)
    ensures d.Next? <==> user.Some? && user.value.role == Admin
    ensures d.Deny? ==> d.failure == Failure(403, AdminDenied)
  {
    RequireRole(user, Admin, AdminDenied)
  }

  /** `isSeller`. */
  function IsSeller(user: Option<UserView>): (d: Decision)
    ensures d.Next? <==> user.Some? && user.value.role == Seller
    ensures d.Deny? ==> d.failure == Failure(403, SellerDenied)
  {
    RequireRole(user, Seller, SellerDenied)
  }

  /** `isBuyer`. */
  function IsBuyer(user: Option<UserView>): (d: Decision)
    ensures d.Next? <==> user.Some? && user.value.role == Buyer
    ensures d.Deny? ==> d.failure == Failure(403, BuyerDenied)
  {
    RequireRole(user, Buyer, BuyerDenied)
  }

  function Passes(d: Decision): nat {
    if d.Next? then 1 else 0
  }

  /**
   * A request without a user is refused by all three guards; one with a
   * user passes exactly one of them, the guard of that user's role.
   */
  lemma GuardsPartition(user: Option<UserView>)
    ensures user.None? ==> IsAdmin(user).Deny? && IsSeller(user).Deny? && IsBuyer(user).Deny?
    ensures Passes(IsAdmin(user)) + Passes(IsSeller(user)) + Passes(IsBuyer(user)) == if user.Some? then 1 else 0
  {
  }
}
