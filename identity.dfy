/** Identities as the ticket code sees them: the fields of an identity excerpt that the
    snapshot, the filters, the caches and the user commands read. */
module Identities {
  import opened Entity

  /** An identity: its id, display name, e-mail, login and the ids it has on Phabricator and
      Gitea. */
  datatype Identity = Identity(id: Id, name: string, email: string, login: string, phabId: string, giteaId: int)
}
