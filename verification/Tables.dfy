// The rows of the management database that decide who may send as whom.
// Users are named by their id; a lookup by user name is taken as done.

module Tables {

  import opened Wrappers

  type Id = nat

  datatype User = User(hasPassword: bool, active: bool, isOperator: bool)

  datatype Invitation = Invitation(user: Id, token: nat, expiresAt: int, usedAt: Option<int>)

  datatype DomainStatus = AwaitingApproval | Approved | Refused

  datatype Domain = Domain(
    name: string, activeName: Option<string>, owner: Id, status: DomainStatus, deletedAt: Option<int>)

  datatype SenderAddress = SenderAddress(domain: Id, address: string)

  /** A grant or scope for the whole domain. */
  const ANY := "*"

  datatype SenderGrant = SenderGrant(domain: Id, user: Id, address: string)

  datatype Credential = Credential(user: Id, expiresAt: Option<int>, revokedAt: Option<int>)

  datatype Scope = Scope(credential: Id, domain: Id, address: string)

  predicate Live(domain: Domain) {
    domain.deletedAt.None?
  }

  predicate Sets(field: Option<bool>, value: bool) {
    field == Some(value)
  }

  /** An account after an update; only the given columns change. */
  function Updated(user: User, active: Option<bool>, operator: Option<bool>): User {
    user.(active := if active.Some? then active.value else user.active,
          isOperator := if operator.Some? then operator.value else user.isOperator)
  }
}
