/** The rules behind the identity half of the cache (cache/repo_cache_identity.go): how an
    identity is resolved and kept, how the Phabricator and Gitea ids of a new or updated
    identity are looked up, and what an update changes. The Phabricator and Gitea clients
    are parameters: each lookup is a function from the searched name to the ids found, or
    the client's error. */
module IdentityLookups {
  import opened Wrappers
  import opened Entity
  import opened StrUtil
  import opened Identities

  /** What ResolveIdentity returns for an id: the loaded identity, or the one read from the
      repository. */
  function IdentityResolution(ids: map<Id, Identity>, read: Id -> Result<Identity>, id: Id): (r: Result<Identity>)
    ensures id in ids ==> r == Ok(ids[id])
    ensures id !in ids ==> r == read(id)
  {
    if id in ids then Ok(ids[id]) else read(id)
  }

  /** The loaded identities after resolving `id`: a successful read is kept. */
  function AfterResolve(ids: map<Id, Identity>, read: Id -> Result<Identity>, id: Id): (r: map<Id, Identity>)
    ensures IdentityResolution(ids, read, id).Ok? ==> id in r && r[id] == IdentityResolution(ids, read, id).value
    ensures forall k :: k in ids ==> k in r && r[k] == ids[k]
  {
    if id in ids || read(id).Err? then ids else ids[id := read(id).value]
  }

  /** The loaded identities only ever gain identities read from the repository. */
  ghost predicate GrewBy(ids0: map<Id, Identity>, ids: map<Id, Identity>, read: Id -> Result<Identity>) {
    && (forall k :: k in ids0 ==> k in ids && ids[k] == ids0[k])
    && (forall k :: k in ids && k !in ids0 ==> read(k) == Ok(ids[k]))
  }

  /** Keeping what was read changes no later answer: resolving any id after a resolution
      gives what it gave before. */
  lemma ResolutionStable(ids: map<Id, Identity>, read: Id -> Result<Identity>, id: Id, x: Id)
    ensures GrewBy(ids, AfterResolve(ids, read, id), read)
    ensures IdentityResolution(AfterResolve(ids, read, id), read, x) == IdentityResolution(ids, read, x)
  {
  }

  lemma ResolutionKept(ids0: map<Id, Identity>, ids: map<Id, Identity>, read: Id -> Result<Identity>, x: Id)
    requires GrewBy(ids0, ids, read)
    ensures IdentityResolution(ids, read, x) == IdentityResolution(ids0, read, x)
  {
  }

  lemma GrewByTransitive(a: map<Id, Identity>, b: map<Id, Identity>, c: map<Id, Identity>, read: Id -> Result<Identity>)
    requires GrewBy(a, b, read) && GrewBy(b, c, read)
    ensures GrewBy(a, c, read)
  {
  }

  /** errors.Wrap: the message, then the cause. */
  function Wrap(cause: string, msg: string): (r: string)
    ensures HasPrefix(r, msg + ": ")
  {
    msg + ": " + cause
  }

  /** The error of slicing a string out of range (the panic of getPhabId when the e-mail
      holds no '@'). */
  const SliceOutOfRange: string := "slice bounds out of range"

  /** getPhabId: the Phabricator user is the part of the e-mail before its first '@'; the
      first PHID found for it is the id. */
  function GetPhabId(email: string, search: string -> Result<seq<string>>): (r: Result<string>)
    ensures '@' !in email ==> r == Err(SliceOutOfRange)
    ensures r.Ok? ==> exists user :: user == email[..IndexOf(email, '@')] && search(user).Ok? && |search(user).value| > 0 && r.value == search(user).value[0]
  {
    if '@' !in email then Err(SliceOutOfRange)
    else
      var user := email[..IndexOf(email, '@')];
      var found := search(user);
      if found.Err? then Err(found.msg)
      else if |found.value| == 0 then Err("no Phabricator users matching " + user)
      else Ok(found.value[0])
  }

  /** The name getPhabId searches for is the e-mail's local part: it holds no '@' and the
      e-mail is that name, an '@', and the domain. */
  lemma PhabUserIsLocalPart(email: string)
    requires '@' in email
    ensures var user := email[..IndexOf(email, '@')];
      && '@' !in user
      && exists domain :: email == user + "@" + domain
  {
    var k := IndexOf(email, '@');
    assert email == email[..k] + "@" + email[k + 1..];
  }

  /** getGiteaId: exactly one Gitea user must match the name. */
  function GetGiteaId(userName: string, search: string -> Result<seq<int>>): (r: Result<int>)
    ensures r.Ok? <==> search(userName).Ok? && |search(userName).value| == 1
    ensures r.Ok? ==> r.value == search(userName).value[0]
    ensures search(userName).Ok? && |search(userName).value| == 0 ==> r == Err("no Gitea users matching " + userName)
    ensures search(userName).Ok? && |search(userName).value| > 1 ==> r == Err("too many Gitea users matching " + userName)
  {
    var found := search(userName);
    if found.Err? then Err(found.msg)
    else if |found.value| == 0 then Err("no Gitea users matching " + userName)
    else if |found.value| > 1 then Err("too many Gitea users matching " + userName)
    else Ok(found.value[0])
  }

  /** The Phabricator id of a new or updated identity: empty when skipped. */
  function PhabIdFor(email: string, skip: bool, search: string -> Result<seq<string>>): (r: Result<string>)
    ensures skip ==> r == Ok("")
    ensures !skip && r.Ok? ==> GetPhabId(email, search) == r
    ensures !skip && r.Err? ==> GetPhabId(email, search).Err? && r.msg == Wrap(GetPhabId(email, search).msg, "failed to retrieve users Phabricator ID")
  {
    if skip then Ok("")
    else
      var p := GetPhabId(email, search);
      if p.Err? then Err(Wrap(p.msg, "failed to retrieve users Phabricator ID")) else p
  }

  /** The Gitea id of a new or updated identity: -1 when skipped. */
  function GiteaIdFor(userName: string, skip: bool, search: string -> Result<seq<int>>): (r: Result<int>)
    ensures skip ==> r == Ok(-1)
    ensures !skip ==> r == GetGiteaId(userName, search)
  {
    if skip then Ok(-1) else GetGiteaId(userName, search)
  }

  /** The mutation of UpdateIdentityWithGiteaId: name, e-mail and both service ids are
      replaced; the login passed along is not applied. */
  function Updated(i: Identity, name: string, email: string, phabId: string, giteaId: int): (u: Identity)
    ensures u.id == i.id && u.login == i.login
    ensures u.name == name && u.email == email && u.phabId == phabId && u.giteaId == giteaId
  {
    i.(name := name, email := email, phabId := phabId, giteaId := giteaId)
  }

  /** Which flag UpdateIdentity hands on as "skip the Phabricator lookup": as written, the
      Gitea flag; evidently intended, its own Phabricator flag. */
  function PhabSkipped(skipPhabId: bool, skipGiteaId: bool, asWritten: bool): bool {
    if asWritten then skipGiteaId else skipPhabId
  }

  /** As written, asking to skip only the Phabricator lookup still performs it: with a
      Phabricator client that fails, the update fails although it was told to skip it. */
  lemma PhabSkipIgnoredAsWritten(email: string)
    ensures var failing := (u: string) => Err("no client");
      && PhabSkipped(true, false, true) == false
      && ('@' in email ==> PhabIdFor(email, PhabSkipped(true, false, true), failing).Err?)
  {
  }

  /** Corrected: the Phabricator lookup happens exactly when the caller did not skip it,
      whatever the Gitea flag. */
  lemma PhabSkipHonoured(email: string, skipPhabId: bool, skipGiteaId: bool, search: string -> Result<seq<string>>)
    ensures PhabSkipped(skipPhabId, skipGiteaId, false) == skipPhabId
    ensures skipPhabId ==> PhabIdFor(email, PhabSkipped(skipPhabId, skipGiteaId, false), search) == Ok("")
    ensures !skipPhabId ==> PhabIdFor(email, PhabSkipped(skipPhabId, skipGiteaId, false), search).Ok? == GetPhabId(email, search).Ok?
  {
  }
}
