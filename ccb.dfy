/** The CCB (change control board) member list (config/ccb.go). */
module Ccb {
  import opened Wrappers
  import opened StrUtil
  import opened Entity
  import opened ConfigStore
  import opened MockRepo

  type CcbConfig = seq<Id>

  /** CcbConfig.IsCcbMember: scans the list for the user's id; it never fails. */
  function IsCcbMember(members: CcbConfig, user: Id): (b: bool)
    ensures b <==> user in members
  {
    if members == [] then false
    else if members[0] == user then true
    else IsCcbMember(members[1..], user)
  }

  /** LoadCcbConfig: reads the "ccb" configuration, an object whose "ccbMembers" key holds the
      member ids; a missing configuration is an empty list. `decode` stands for the JSON
      decoder. */
  method LoadCcbConfig(repo: Repo, decode: string -> Result<map<string, seq<Id>>>) returns (r: Result<CcbConfig>)
    ensures var stored := StoredConfig(repo.refs, repo.commits, repo.trees, repo.blobs, "ccb");
      && (stored.NotFound? ==> r == Ok([]))
      && (stored.Failed? ==> r == Err("unable to read ccb config: " + Quote(stored.msg)))
      && (stored.Data? ==> r == match decode(stored.data)
            case Err(m) => Err("unable to load ccb: " + Quote(m))
            case Ok(m) => if "ccbMembers" in m then Ok(m["ccbMembers"]) else Err("unexpected ccb config format"))
  {
    var data := GetConfig(repo, "ccb");
    if data.NotFound? {
      return Ok([]);
    }
    if data.Failed? {
      return Err("unable to read ccb config: " + Quote(data.msg));
    }
    var decoded := decode(data.data);
    if decoded.Err? {
      return Err("unable to load ccb: " + Quote(decoded.msg));
    }
    if "ccbMembers" !in decoded.value {
      return Err("unexpected ccb config format");
    }
    return Ok(decoded.value["ccbMembers"]);
  }

  /** Without a stored configuration nobody is a member. */
  lemma MissingConfigNoMembers(refs: map<string, Hash>, commits: map<Hash, Commit>, trees: map<Hash, seq<TreeEntry>>,
                               blobs: map<Hash, string>, user: Id)
    requires ConfigRefPrefix + "ccb" !in refs
    ensures StoredConfig(refs, commits, trees, blobs, "ccb").NotFound?
    ensures !IsCcbMember([], user)
  {
  }
}
