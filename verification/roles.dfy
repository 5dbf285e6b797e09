/**
 * Session roles (shift/src/sessions/role.rs).  shift's own `Role` is ordered by its
 * discriminant (Normal = 0 < Admin = 1); the wire protocol has its own `SessionRole`
 * enumeration, and the two convert into each other.
 */
module Roles {
  datatype Role = Normal | Admin

  /** The protocol's role enumeration (tab-protocol `SessionRole`). */
  datatype SessionRole = Admin | Session

  /** The `repr(u8)` discriminant of a role. */
  function Discriminant(r: Role): (d: nat)
    ensures d < 2
    ensures d == 1 <==> r == Role.Admin
  {
    match r
    case Normal => 0
    case Admin => 1
  }

  /** The derived `Ord`: roles compare by discriminant. */
  predicate Below(a: Role, b: Role)
  {
    Discriminant(a) < Discriminant(b)
  }

  /** `From<SessionRole> for Role`. */
  function FromProtocol(sr: SessionRole): (r: Role)
    ensures r == Role.Admin <==> sr == SessionRole.Admin
  {
    match sr
    case Admin => Role.Admin
    case Session => Role.Normal
  }

  /** `From<Role> for SessionRole`. */
  function ToProtocol(r: Role): (sr: SessionRole)
    ensures sr == SessionRole.Admin <==> r == Role.Admin
  {
    match r
    case Normal => SessionRole.Session
    case Admin => SessionRole.Admin
  }

  /** The two conversions are mutually inverse. */
  lemma ConversionsRoundTrip(r: Role, sr: SessionRole)
    ensures FromProtocol(ToProtocol(r)) == r
    ensures ToProtocol(FromProtocol(sr)) == sr
  {
  }

  /** The ordering is strict and total, with Admin the greatest role. */
  lemma OrderIsTotalWithAdminOnTop(a: Role, b: Role)
    ensures !Below(a, a)
    ensures a != b ==> (Below(a, b) <==> !Below(b, a))
    ensures !Below(Role.Admin, b)
    ensures Below(Role.Normal, Role.Admin)
  {
  }
}
