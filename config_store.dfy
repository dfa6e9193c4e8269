/** Named configurations stored in git (config/config.go). Each configuration is a commit
    chain under `refs/configs/<name>` whose tree holds one `config.json` blob. Remote
    configurations are fetched to `refs/remotes/<remote>/configs/<name>` and then synced. */
module ConfigStore {
  import opened Wrappers
  import opened StrUtil
  import opened MockRepo

  const ConfigRefPrefix: string := "refs/configs/"
  const ConfigFile: string := "config.json"

  function RemoteRefPrefix(remote: string): string {
    "refs/remotes/" + remote + "/configs/"
  }

  /** Where a diverged local configuration is backed up. */
  function ConflictRef(name: string, commit: Hash): string {
    "refs/conflicts/config-" + name + "-" + commit
  }

  /** ListConfigs: the name of every configuration, i.e. every config ref without its prefix. */
  method ListConfigs(repo: Repo) returns (configs: seq<string>)
    ensures forall c :: c in configs <==> ConfigRefPrefix + c in repo.refs
    ensures forall i, j :: 0 <= i < j < |configs| ==> configs[i] != configs[j]
  {
    var refs := repo.ListRefs(ConfigRefPrefix);
    configs := [];
    var i := 0;
    while i < |refs|
      invariant 0 <= i <= |refs| && |configs| == i
      invariant forall j :: 0 <= j < i ==> ConfigRefPrefix + configs[j] == refs[j]
    {
      configs := configs + [TrimPrefix(refs[i], ConfigRefPrefix)];
      i := i + 1;
    }
    forall c | ConfigRefPrefix + c in repo.refs
      ensures c in configs
    {
      var ref := ConfigRefPrefix + c;
      assert ref[..|ConfigRefPrefix|] == ConfigRefPrefix;
      var j :| 0 <= j < |refs| && refs[j] == ref;
      assert ConfigRefPrefix + configs[j] == ConfigRefPrefix + c;
      assert configs[j] == (ConfigRefPrefix + configs[j])[|ConfigRefPrefix|..];
    }
    forall i, j | 0 <= i < j < |configs|
      ensures configs[i] != configs[j]
    {
      assert refs[i] != refs[j];
    }
  }

  /** The outcome of GetConfig: the data, a NotFoundError, or another error. */
  datatype Fetched = Data(data: string) | NotFound(msg: string) | Failed(msg: string)

  /** The first blob entry named `config.json`. */
  function ConfigEntry(entries: seq<TreeEntry>): (r: Option<TreeEntry>)
    ensures r.Some? ==> r.value in entries && r.value.objectType == Blob && r.value.name == ConfigFile
    ensures r.None? ==> forall e :: e in entries ==> !(e.objectType == Blob && e.name == ConfigFile)
  {
    if entries == [] then None
    else if entries[0].objectType == Blob && entries[0].name == ConfigFile then Some(entries[0])
    else ConfigEntry(entries[1..])
  }

  /** What GetConfig reads for `name` in a store with these objects and refs. */
  function StoredConfig(refs: map<string, Hash>, commits: map<Hash, Commit>, trees: map<Hash, seq<TreeEntry>>,
                        blobs: map<Hash, string>, name: string): Fetched
  {
    var refName := ConfigRefPrefix + name;
    if refName !in refs then NotFound("cache: failed to resolve ref " + refName + ": Unknown ref")
    else
      var c := refs[refName];
      if c !in commits then
        Failed("cache: failed to get the tree for commit " + c + " (ref: " + refName + "): unknown commit")
      else
        var t := commits[c].treeHash;
        match TreeAt(trees, commits, t)
        case Err(m) => Failed("cache: failed to list entries in tree " + t + " (ref: " + refName + "): " + m)
        case Ok(entries) => ConfigData(entries, blobs, refName)
  }

  /** What GetConfig reads from the entries of the tree `refName` points to: the data of
      the first `config.json` blob. */
  function ConfigData(entries: seq<TreeEntry>, blobs: map<Hash, string>, refName: string): (r: Fetched)
    ensures !r.NotFound?
  {
    match ConfigEntry(entries)
    case None =>
      Failed("cache: failed to find \"config.json\" blob in the tree corresponding to the HEAD of " + refName)
    case Some(e) =>
      if e.hash in blobs then Data(blobs[e.hash])
      else Failed("cache: failed to get data for blob " + e.hash + " (ref: " + refName + "): unknown hash")
  }

  /** GetConfig: resolves the ref, reads its commit's tree and returns the first `config.json`
      blob; only an unknown ref is reported as NotFoundError. */
  method GetConfig(repo: Repo, name: string) returns (r: Fetched)
    ensures r == StoredConfig(repo.refs, repo.commits, repo.trees, repo.blobs, name)
    ensures r.NotFound? <==> ConfigRefPrefix + name !in repo.refs
  {
    var refName := ConfigRefPrefix + name;
    var commitHash := repo.ResolveRef(refName);
    if commitHash.Err? {
      return NotFound("cache: failed to resolve ref " + refName + ": " + commitHash.msg);
    }
    var treeHash := repo.GetTreeHash(commitHash.value);
    if treeHash.Err? {
      return Failed("cache: failed to get the tree for commit " + commitHash.value + " (ref: " + refName + "): "
        + treeHash.msg);
    }
    var tree := repo.ReadTree(treeHash.value);
    if tree.Err? {
      return Failed("cache: failed to list entries in tree " + treeHash.value + " (ref: " + refName + "): "
        + tree.msg);
    }
    r := ReadConfigData(repo, tree.value, refName);
  }

  /** The entry loop of GetConfig: reads the first `config.json` blob of the tree. */
  method ReadConfigData(repo: Repo, entries: seq<TreeEntry>, refName: string) returns (r: Fetched)
    ensures r == ConfigData(entries, repo.blobs, refName)
  {
    var i := 0;
    while i < |entries|
      invariant 0 <= i <= |entries|
      invariant ConfigEntry(entries) == ConfigEntry(entries[i..])
    {
      assert entries[i..][1..] == entries[i + 1..];
      var entry := entries[i];
      if entry.objectType == Blob && entry.name == ConfigFile {
        assert ConfigEntry(entries) == Some(entry);
        var data := repo.ReadData(entry.hash);
        if data.Err? {
          return Failed("cache: failed to get data for blob " + entry.hash + " (ref: " + refName + "): " + data.msg);
        }
        return Data(data.value);
      }
      i := i + 1;
    }
    assert entries[i..] == [];
    return Failed("cache: failed to find \"config.json\" blob in the tree corresponding to the HEAD of " + refName);
  }

  /** SetConfig: stores the data as a blob in a one-entry tree; commits it unless the ref's
      current commit already has that tree, with the old commit as parent when the ref exists;
      then points the ref at the commit. Afterwards GetConfig reads the data back. */
  method SetConfig(repo: Repo, name: string, data: string) returns (r: Outcome)
    requires repo.Valid()
    modifies repo
    ensures repo.Valid()
    ensures var blob := repo.sha1(data);
      var tree := [TreeEntry(Blob, blob, ConfigFile)];
      var t := repo.treeDigest(tree);
      var refName := ConfigRefPrefix + name;
      && repo.blobs == old(repo.blobs)[blob := data]
      && repo.trees == old(repo.trees)[t := tree]
      && (refName !in old(repo.refs) ==>
            var c := repo.sha1(t);
            r == Pass && repo.commits == old(repo.commits)[c := Commit(t, "")] && repo.refs == old(repo.refs)[refName := c])
      && (refName in old(repo.refs) && old(repo.refs)[refName] !in old(repo.commits) ==>
            r.Fail? && repo.commits == old(repo.commits) && repo.refs == old(repo.refs))
      && (refName in old(repo.refs) && old(repo.refs)[refName] in old(repo.commits) ==>
            var oc := old(repo.refs)[refName];
            var c := repo.sha1(t + oc);
            r == Pass
            && (old(repo.commits)[oc].treeHash == t ==> repo.commits == old(repo.commits) && repo.refs == old(repo.refs))
            && (old(repo.commits)[oc].treeHash != t ==>
                  repo.commits == old(repo.commits)[c := Commit(t, oc)] && repo.refs == old(repo.refs)[refName := c]))
    ensures r.Pass? ==> StoredConfig(repo.refs, repo.commits, repo.trees, repo.blobs, name) == Data(data)
  {
    var blobHash := repo.StoreData(data);
    var tree := [TreeEntry(Blob, blobHash, ConfigFile)];
    var treeHash := repo.StoreTree(tree);
    var refName := ConfigRefPrefix + name;
    var found := repo.RefExist(refName);
    var commitHash: Hash;
    if found {
      var oldCommitHash := repo.ResolveRef(refName);
      var oldTreeHash := repo.GetTreeHash(oldCommitHash.value);
      if oldTreeHash.Err? {
        return Fail("cache: failed to get the tree for commit " + oldCommitHash.value + " (ref: " + refName + "): "
          + oldTreeHash.msg);
      }
      if oldTreeHash.value == treeHash {
        assert ConfigEntry(tree) == Some(tree[0]);
        return Pass;
      }
      commitHash := repo.StoreCommitWithParent(treeHash, oldCommitHash.value);
    } else {
      commitHash := repo.StoreCommit(treeHash);
    }
    repo.UpdateRef(refName, commitHash);
    assert ConfigEntry(tree) == Some(tree[0]);
    return Pass;
  }

  /** The sync decision UpdateConfigs takes for one remote config ref. */
  datatype Sync = New | Same | LocalAhead | FastForward | Diverged | SyncFailed(msg: string)

  /** The config name a remote ref stands for. */
  function NameOf(spec: string, remoteRef: string): string {
    TrimPrefix(remoteRef, spec)
  }

  function LocalRefOf(spec: string, remoteRef: string): string {
    ConfigRefPrefix + NameOf(spec, remoteRef)
  }

  /** The decision for `remoteRef`, from the refs at the moment it is handled. */
  function Decide(refs: map<string, Hash>, commits: map<Hash, Commit>, spec: string, remoteRef: string): Sync {
    var local := LocalRefOf(spec, remoteRef);
    if local !in refs then
      if remoteRef in refs then New else SyncFailed("failed to copy ref " + remoteRef + ": Unknown ref")
    else if remoteRef !in refs then SyncFailed("failed to resolve remote ref " + remoteRef + ": Unknown ref")
    else
      var l := refs[local];
      var rc := refs[remoteRef];
      if l == rc then Same
      else match CommonAncestor(commits, l, rc)
        case Err(m) => SyncFailed("failed to get common ancestor " + l + " " + rc + ": " + m)
        case Ok(a) => if a == rc then LocalAhead else if a == l then FastForward else Diverged
  }

  /** The refs after the decision is carried out. */
  function Synced(refs: map<string, Hash>, spec: string, remoteRef: string, d: Sync): map<string, Hash>
    requires !d.SyncFailed? && remoteRef in refs
    requires d == Diverged ==> LocalRefOf(spec, remoteRef) in refs
  {
    var local := LocalRefOf(spec, remoteRef);
    match d
    case New => refs[local := refs[remoteRef]]
    case FastForward => refs[local := refs[remoteRef]]
    case Diverged =>
      refs[ConflictRef(NameOf(spec, remoteRef), refs[local]) := refs[local]][local := refs[remoteRef]]
    case _ => refs
  }

  /** The lines UpdateConfigs reports for the decision. */
  function Report(refs: map<string, Hash>, spec: string, remoteRef: string, d: Sync): string
    requires !d.SyncFailed? && remoteRef in refs
    requires d == Diverged ==> LocalRefOf(spec, remoteRef) in refs
  {
    var name := NameOf(spec, remoteRef);
    var local := LocalRefOf(spec, remoteRef);
    match d
    case New => local + ": new\n"
    case FastForward => local + ": updated to " + refs[remoteRef] + "\n"
    case Diverged =>
      local + ": updated to " + refs[remoteRef] + "\n"
      + "Warning: Changes to your local config (" + name + ") conflict with the remote config\n"
      + "Warning: and therefore have been discarded, backed up at: " + ConflictRef(name, refs[local]) + "\n"
    case _ => ""
  }

  /** The refs, the report and the first error of UpdateConfigs handling the remote refs in
      the given order. */
  datatype SyncState = SyncState(refs: map<string, Hash>, out: string, failure: Option<string>)

  function SyncAll(refs: map<string, Hash>, commits: map<Hash, Commit>, spec: string, order: seq<string>): SyncState
    decreases |order|
  {
    if order == [] then SyncState(refs, "", None)
    else
      var d := Decide(refs, commits, spec, order[0]);
      if d.SyncFailed? then SyncState(refs, "", Some(d.msg))
      else
        var rest := SyncAll(Synced(refs, spec, order[0], d), commits, spec, order[1..]);
        SyncState(rest.refs, Report(refs, spec, order[0], d) + rest.out, rest.failure)
  }

  /** One iteration of UpdateConfigs. */
  method SyncOne(repo: Repo, spec: string, remoteRef: string) returns (report: string, r: Outcome)
    modifies repo
    ensures repo.blobs == old(repo.blobs) && repo.trees == old(repo.trees) && repo.commits == old(repo.commits)
    ensures var d := Decide(old(repo.refs), repo.commits, spec, remoteRef);
      && (d.SyncFailed? ==> r == Fail(d.msg) && report == "" && repo.refs == old(repo.refs))
      && (!d.SyncFailed? ==> r == Pass && report == Report(old(repo.refs), spec, remoteRef, d)
                             && repo.refs == Synced(old(repo.refs), spec, remoteRef, d))
  {
    var refName := NameOf(spec, remoteRef);
    var localRef := ConfigRefPrefix + refName;
    var exist := repo.RefExist(localRef);
    if !exist {
      var copied := repo.CopyRef(remoteRef, localRef);
      if copied.Fail? {
        return "", Fail("failed to copy ref " + remoteRef + ": " + copied.msg);
      }
      return localRef + ": new\n", Pass;
    }
    var localCommit := repo.ResolveRef(localRef);
    var remoteCommit := repo.ResolveRef(remoteRef);
    if remoteCommit.Err? {
      return "", Fail("failed to resolve remote ref " + remoteRef + ": " + remoteCommit.msg);
    }
    var l := localCommit.value;
    var rc := remoteCommit.value;
    if l == rc {
      return "", Pass;
    }
    var ancestor := repo.FindCommonAncestor(l, rc);
    if ancestor.Err? {
      return "", Fail("failed to get common ancestor " + l + " " + rc + ": " + ancestor.msg);
    }
    if ancestor.value == rc {
      return "", Pass;
    }
    if ancestor.value == l {
      repo.UpdateRef(localRef, rc);
      return localRef + ": updated to " + rc + "\n", Pass;
    }
    var localBak := ConflictRef(refName, l);
    var copied := repo.CopyRef(localRef, localBak);
    repo.UpdateRef(localRef, rc);
    report := localRef + ": updated to " + rc + "\n"
      + "Warning: Changes to your local config (" + refName + ") conflict with the remote config\n"
      + "Warning: and therefore have been discarded, backed up at: " + localBak + "\n";
    return report, Pass;
  }

  /** UpdateConfigs: syncs every remote config ref of `remote`, in the store's (arbitrary) ref
      order, which `order` exposes; it stops at the first error, keeping the report so far. */
  method UpdateConfigs(repo: Repo, remote: string) returns (out: string, r: Outcome, ghost order: seq<string>)
    modifies repo
    ensures repo.blobs == old(repo.blobs) && repo.trees == old(repo.trees) && repo.commits == old(repo.commits)
    ensures forall k :: k in order <==> k in old(repo.refs) && HasPrefix(k, RemoteRefPrefix(remote))
    ensures forall i, j :: 0 <= i < j < |order| ==> order[i] != order[j]
    ensures var s := SyncAll(old(repo.refs), repo.commits, RemoteRefPrefix(remote), order);
      repo.refs == s.refs && out == s.out && r == (if s.failure.None? then Pass else Fail(s.failure.value))
  {
    var spec := RemoteRefPrefix(remote);
    var remoteRefs := repo.ListRefs(spec);
    order := remoteRefs;
    out := "";
    var i := 0;
    assert remoteRefs[0..] == remoteRefs;
    while i < |remoteRefs|
      invariant 0 <= i <= |remoteRefs|
      invariant repo.blobs == old(repo.blobs) && repo.trees == old(repo.trees) && repo.commits == old(repo.commits)
      invariant SyncedSoFar(old(repo.refs), repo.refs, repo.commits, spec, remoteRefs, i, out)
    {
      SyncedStep(old(repo.refs), repo.refs, repo.commits, spec, remoteRefs, i, out);
      var report, step := SyncOne(repo, spec, remoteRefs[i]);
      if step.Fail? {
        return out, step, order;
      }
      out := out + report;
      i := i + 1;
    }
    assert remoteRefs[i..] == [];
    return out, Pass, order;
  }

  /** After the first `i` remote refs of `order` are synced from `start` into `refs` with
      report `out`, the remaining ones complete the whole sync. */
  ghost predicate SyncedSoFar(start: map<string, Hash>, refs: map<string, Hash>, commits: map<Hash, Commit>, spec: string,
                              order: seq<string>, i: nat, out: string)
    requires i <= |order|
  {
    var s := SyncAll(refs, commits, spec, order[i..]);
    SyncAll(start, commits, spec, order) == SyncState(s.refs, out + s.out, s.failure)
  }

  /** Syncing one more remote ref either fails the whole sync there or extends the report. */
  lemma SyncedStep(start: map<string, Hash>, refs: map<string, Hash>, commits: map<Hash, Commit>, spec: string,
                   order: seq<string>, i: nat, out: string)
    requires i < |order| && SyncedSoFar(start, refs, commits, spec, order, i, out)
    ensures var d := Decide(refs, commits, spec, order[i]);
      && (d.SyncFailed? ==> SyncAll(start, commits, spec, order) == SyncState(refs, out, Some(d.msg)))
      && (!d.SyncFailed? ==>
            SyncedSoFar(start, Synced(refs, spec, order[i], d), commits, spec, order, i + 1, out + Report(refs, spec, order[i], d)))
  {
    assert order[i..][0] == order[i] && order[i..][1..] == order[i + 1..];
    var d := Decide(refs, commits, spec, order[i]);
    if !d.SyncFailed? {
      var report := Report(refs, spec, order[i], d);
      var s := SyncAll(Synced(refs, spec, order[i], d), commits, spec, order[i + 1..]);
      assert out + (report + s.out) == (out + report) + s.out;
    }
  }

  /** The commit a config ref holds once its remote ref has been synced. */
  function Target(refs: map<string, Hash>, commits: map<Hash, Commit>, spec: string, remoteRef: string): Hash
    requires !Decide(refs, commits, spec, remoteRef).SyncFailed?
  {
    var d := Decide(refs, commits, spec, remoteRef);
    if d == Same || d == LocalAhead then refs[LocalRefOf(spec, remoteRef)] else refs[remoteRef]
  }

  /** Remote refs, local config refs and conflict backups are three disjoint name spaces. */
  lemma RefKinds(remote: string, remoteRef: string, x: string, name: string, c: Hash)
    requires HasPrefix(remoteRef, RemoteRefPrefix(remote))
    ensures remoteRef != ConfigRefPrefix + x && remoteRef != ConflictRef(name, c)
    ensures !HasPrefix(remoteRef, "refs/conflicts/")
    ensures ConfigRefPrefix + x != ConflictRef(name, c)
    ensures HasPrefix(ConflictRef(name, c), "refs/conflicts/") && !HasPrefix(ConfigRefPrefix + x, "refs/conflicts/")
  {
    assert remoteRef[5] == RemoteRefPrefix(remote)[5] == 'r';
    assert (ConfigRefPrefix + x)[5] == 'c';
    assert (ConfigRefPrefix + x)[9] == 'i';
    assert ConflictRef(name, c)[9] == 'l';
    assert ConflictRef(name, c)[..15] == "refs/conflicts/";
  }

  /** Distinct remote refs stand for distinct local config refs. */
  lemma LocalRefInjective(spec: string, a: string, b: string)
    requires HasPrefix(a, spec) && HasPrefix(b, spec) && a != b
    ensures LocalRefOf(spec, a) != LocalRefOf(spec, b)
  {
    assert spec + NameOf(spec, a) == a && spec + NameOf(spec, b) == b;
    assert NameOf(spec, a) == LocalRefOf(spec, a)[|ConfigRefPrefix|..];
    assert NameOf(spec, b) == LocalRefOf(spec, b)[|ConfigRefPrefix|..];
  }

  /** The decision for a remote ref depends only on it and its local ref. */
  lemma DecideFrame(refs: map<string, Hash>, refs': map<string, Hash>, commits: map<Hash, Commit>, spec: string, remoteRef: string)
    requires var local := LocalRefOf(spec, remoteRef);
      && (local in refs <==> local in refs') && (local in refs ==> refs[local] == refs'[local])
      && (remoteRef in refs <==> remoteRef in refs') && (remoteRef in refs ==> refs[remoteRef] == refs'[remoteRef])
    ensures Decide(refs, commits, spec, remoteRef) == Decide(refs', commits, spec, remoteRef)
    ensures !Decide(refs, commits, spec, remoteRef).SyncFailed? ==>
      Target(refs, commits, spec, remoteRef) == Target(refs', commits, spec, remoteRef)
  {
  }

  /** Carrying out one decision changes only that config's local ref and a conflict backup. */
  lemma StepFrame(refs: map<string, Hash>, commits: map<Hash, Commit>, remote: string, a: string)
    requires HasPrefix(a, RemoteRefPrefix(remote))
    requires !Decide(refs, commits, RemoteRefPrefix(remote), a).SyncFailed?
    ensures var spec := RemoteRefPrefix(remote);
      var refs1 := Synced(refs, spec, a, Decide(refs, commits, spec, a));
      && LocalRefOf(spec, a) in refs1 && refs1[LocalRefOf(spec, a)] == Target(refs, commits, spec, a)
      && !HasPrefix(LocalRefOf(spec, a), "refs/conflicts/")
      && forall k :: !HasPrefix(k, "refs/conflicts/") && k != LocalRefOf(spec, a) ==>
           (k in refs1 <==> k in refs) && (k in refs ==> refs1[k] == refs[k])
  {
    var spec := RemoteRefPrefix(remote);
    var localA := LocalRefOf(spec, a);
    RefKinds(remote, a, NameOf(spec, a), NameOf(spec, a), if localA in refs then refs[localA] else "");
  }

  /** After one step, the decisions and targets of the other remote refs are unchanged. */
  lemma OtherStepFrame(refs: map<string, Hash>, refs1: map<string, Hash>, commits: map<Hash, Commit>, remote: string,
                       a: string, rr: string)
    requires HasPrefix(a, RemoteRefPrefix(remote)) && HasPrefix(rr, RemoteRefPrefix(remote)) && a != rr
    requires forall k :: !HasPrefix(k, "refs/conflicts/") && k != LocalRefOf(RemoteRefPrefix(remote), a) ==>
      (k in refs1 <==> k in refs) && (k in refs ==> refs1[k] == refs[k])
    ensures var spec := RemoteRefPrefix(remote);
      && LocalRefOf(spec, rr) != LocalRefOf(spec, a)
      && Decide(refs1, commits, spec, rr) == Decide(refs, commits, spec, rr)
      && (!Decide(refs, commits, spec, rr).SyncFailed? ==> Target(refs1, commits, spec, rr) == Target(refs, commits, spec, rr))
  {
    var spec := RemoteRefPrefix(remote);
    LocalRefInjective(spec, a, rr);
    RefKinds(remote, rr, NameOf(spec, rr), "", "");
    RefKinds(remote, rr, NameOf(spec, a), "", "");
    assert rr != LocalRefOf(spec, a);
    DecideFrame(refs, refs1, commits, spec, rr);
  }

  /** UpdateConfigs in any order: it fails exactly when some config's own decision (taken on
      the refs before the sync) fails; otherwise every config ref ends at its target; refs that
      are neither a synced config ref nor a conflict backup keep their value. */
  lemma {:induction false} SyncAllEffect(refs: map<string, Hash>, commits: map<Hash, Commit>, remote: string, order: seq<string>)
    requires forall i, j :: 0 <= i < j < |order| ==> order[i] != order[j]
    requires forall rr :: rr in order ==> HasPrefix(rr, RemoteRefPrefix(remote))
    ensures var spec := RemoteRefPrefix(remote);
      var s := SyncAll(refs, commits, spec, order);
      && (s.failure.None? <==> forall rr :: rr in order ==> !Decide(refs, commits, spec, rr).SyncFailed?)
      && (forall k :: !HasPrefix(k, "refs/conflicts/") && (forall rr :: rr in order ==> k != LocalRefOf(spec, rr)) ==>
            (k in s.refs <==> k in refs) && (k in refs ==> s.refs[k] == refs[k]))
      && (s.failure.None? ==> forall rr :: rr in order ==>
            !Decide(refs, commits, spec, rr).SyncFailed? && LocalRefOf(spec, rr) in s.refs
            && s.refs[LocalRefOf(spec, rr)] == Target(refs, commits, spec, rr))
    decreases |order|
  {
    var spec := RemoteRefPrefix(remote);
    if order != [] {
      var a := order[0];
      var rest := order[1..];
      var d := Decide(refs, commits, spec, a);
      if !d.SyncFailed? {
        var refs1 := Synced(refs, spec, a, d);
        StepFrame(refs, commits, remote, a);
        DistinctTail(order);
        SyncAllEffect(refs1, commits, remote, rest);
        OthersStepFrame(refs, refs1, commits, remote, order);
      }
    }
  }

  lemma DistinctTail(order: seq<string>)
    requires order != [] && forall i, j :: 0 <= i < j < |order| ==> order[i] != order[j]
    ensures forall i, j :: 0 <= i < j < |order[1..]| ==> order[1..][i] != order[1..][j]
    ensures order[0] !in order[1..]
  {
    forall i, j | 0 <= i < j < |order[1..]| ensures order[1..][i] != order[1..][j] {
      assert order[1..][i] == order[i + 1] && order[1..][j] == order[j + 1];
    }
  }

  /** After syncing the first remote ref, the decisions and targets of the others are unchanged. */
  lemma OthersStepFrame(refs: map<string, Hash>, refs1: map<string, Hash>, commits: map<Hash, Commit>, remote: string,
                        order: seq<string>)
    requires order != [] && order[0] !in order[1..]
    requires forall rr :: rr in order ==> HasPrefix(rr, RemoteRefPrefix(remote))
    requires forall k :: !HasPrefix(k, "refs/conflicts/") && k != LocalRefOf(RemoteRefPrefix(remote), order[0]) ==>
      (k in refs1 <==> k in refs) && (k in refs ==> refs1[k] == refs[k])
    ensures var spec := RemoteRefPrefix(remote);
      forall rr :: rr in order[1..] ==>
        && LocalRefOf(spec, rr) != LocalRefOf(spec, order[0])
        && Decide(refs1, commits, spec, rr) == Decide(refs, commits, spec, rr)
        && (!Decide(refs, commits, spec, rr).SyncFailed? ==> Target(refs1, commits, spec, rr) == Target(refs, commits, spec, rr))
  {
    forall rr | rr in order[1..]
      ensures LocalRefOf(RemoteRefPrefix(remote), rr) != LocalRefOf(RemoteRefPrefix(remote), order[0])
      ensures Decide(refs1, commits, RemoteRefPrefix(remote), rr) == Decide(refs, commits, RemoteRefPrefix(remote), rr)
      ensures !Decide(refs, commits, RemoteRefPrefix(remote), rr).SyncFailed? ==>
        Target(refs1, commits, RemoteRefPrefix(remote), rr) == Target(refs, commits, RemoteRefPrefix(remote), rr)
    {
      OtherStepFrame(refs, refs1, commits, remote, order[0], rr);
    }
  }
}
