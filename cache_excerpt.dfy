/** The cache's summaries of tickets and identities (cache/bug_excerpt.go and
    cache/identity_excerpt.go are not part of this model): the fields that the filters, the
    caches and the ticket table read. Times are Unix seconds. */
module CacheExcerpts {
  import opened Entity
  import opened Status
  import Snapshots

  /** One CCB approval as an excerpt keeps it: the member's id, the ticket status it is for
      and its state. */
  datatype CcbExcerpt = CcbExcerpt(user: Id, status: Status, state: Snapshots.CcbState)

  /** BugExcerpt. An unset author or assignee id is the empty string; `createMetadata` is
      the metadata of the ticket's create operation. */
  datatype BugExcerpt = BugExcerpt(
    id: Id, createTime: int, editTime: int, status: Status, labels: seq<string>,
    title: string, lenComments: int, authorId: Id, assigneeId: Id,
    actors: seq<Id>, participants: seq<Id>, ccb: seq<CcbExcerpt>,
    createMetadata: map<string, string>)

  /** IdentityExcerpt. */
  datatype IdentityExcerpt = IdentityExcerpt(id: Id, name: string, login: string, phabId: string, giteaId: int)

  /** Reading a Go map: a missing key reads as the empty string. */
  function Lookup(m: map<string, string>, key: string): (r: string)
    ensures key !in m ==> r == ""
    ensures key in m ==> r == m[key]
  {
    if key in m then m[key] else ""
  }

  /** Id.Human: the first seven characters of an id. */
  function HumanId(id: Id): (r: string)
    ensures |r| == if |id| < 7 then |id| else 7
    ensures r <= id
  {
    if |id| < 7 then id else id[..7]
  }
}
