/** The action ladder (auth/permissions.rs), namespaces and the grants they store (raft/state_machine.rs). */
module Grants {
  import opened Principal

  datatype Action = Pull | Create | Update | Delete | Admin

  function Rank(a: Action): nat {
    match a case Pull => 0 case Create => 1 case Update => 2 case Delete => 3 case Admin => 4
  }

  /** A grant at or above the requested tier covers it; `Admin` is covered by itself alone. */
  predicate ActionMatches(allowed: Action, requested: Action) {
    if allowed == Admin || requested == Admin then allowed == requested else Rank(allowed) >= Rank(requested)
  }

  datatype Grantee = ToGroup(id: Id) | ToUser(id: Id) | ToPublic
  datatype Grant = Grant(grantee: Grantee, action: Action) {
    /** What is checked before a grant is stored: the grantee has the right kind, and public grants are pull-only. */
    predicate WellFormed() {
      match grantee
      case ToGroup(id) => id.kind == Group
      case ToUser(id) => id.kind == User
      case ToPublic => action == Pull
    }
  }

  datatype Owner = OwnedByUser(subject: Bytes) | OwnedByOrg(id: Bytes)
  datatype Namespace = Namespace(generation: nat, owner: Owner)

  /** The grants of each namespace, by grant id. */
  type GrantTable = map<string, map<string, Grant>>

  function GrantsOf(grants: GrantTable, handle: string): map<string, Grant> {
    if handle in grants then grants[handle] else map[]
  }
}
