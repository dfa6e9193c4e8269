/** The in-memory git store used by the tests (repository/mock_repo.go): blobs, trees and
    commits addressed by hash, and named refs pointing at hashes. */
module MockRepo {
  import opened Wrappers
  import opened StrUtil

  type Hash = string

  datatype ObjectType = Blob | Tree

  datatype TreeEntry = TreeEntry(objectType: ObjectType, hash: Hash, name: string)

  /** A commit: its tree and its parent ("" for a root commit). */
  datatype Commit = Commit(treeHash: Hash, parent: Hash)

  /** The commits of `h`'s parent chain, oldest first, walking at most `fuel` commits. */
  function Chain(commits: map<Hash, Commit>, h: Hash, fuel: nat): (r: seq<Hash>)
    decreases fuel
    ensures |r| <= fuel
    ensures r != [] <==> fuel > 0 && h in commits
    ensures r != [] ==> r[|r| - 1] == h
    ensures forall i :: 0 <= i < |r| ==> r[i] in commits
    ensures forall i :: 0 < i < |r| ==> commits[r[i]].parent == r[i - 1]
  {
    if fuel == 0 || h !in commits then [] else Chain(commits, commits[h].parent, fuel - 1) + [h]
  }

  /** `h` followed by the hashes of its parent chain, ending with the "" parent of the root;
      an error names the first hash on the way that is not a commit. At most `fuel` steps. */
  function Ancestors(commits: map<Hash, Commit>, h: Hash, fuel: nat): (r: Result<seq<Hash>>)
    decreases fuel
    ensures r.Ok? ==> |r.value| >= 1 && r.value[0] == h
    ensures r.Ok? ==> forall i :: 0 <= i < |r.value| - 1 ==> r.value[i] in commits && commits[r.value[i]].parent == r.value[i + 1]
  {
    if h == "" then Ok([h])
    else if h !in commits then Err("unknown commit " + h)
    else if fuel == 0 then Err("unknown commit " + h)
    else match Ancestors(commits, commits[h].parent, fuel - 1)
      case Err(m) => Err(m)
      case Ok(rest) => Ok([h] + rest)
  }

  /** The first of `h2`, its parent, its grandparent, ... that is in `anc`. `hash1` is what the
      error for an unknown commit quotes (the first walk has already run it down to ""). */
  function FirstCommon(commits: map<Hash, Commit>, anc: seq<Hash>, h2: Hash, fuel: nat): (r: Result<Hash>)
    decreases fuel
    ensures r.Ok? ==> r.value in anc
  {
    if h2 in anc then Ok(h2)
    else if h2 !in commits then Err("unknown commit ")
    else if commits[h2].parent == "" then Err("no ancestor found")
    else if fuel == 0 then Err("no ancestor found")
    else FirstCommon(commits, anc, commits[h2].parent, fuel - 1)
  }

  /** The parent chain of `h2`, `h2` first, as far as `fuel` allows. */
  function Lineage(commits: map<Hash, Commit>, h: Hash, fuel: nat): seq<Hash>
    decreases fuel
  {
    if h !in commits || commits[h].parent == "" || fuel == 0 then [h]
    else [h] + Lineage(commits, commits[h].parent, fuel - 1)
  }

  /** The result of FindCommonAncestor on a store with these commits. */
  function CommonAncestor(commits: map<Hash, Commit>, h1: Hash, h2: Hash): (r: Result<Hash>)
    ensures r.Ok? ==> Ancestors(commits, h1, |commits|).Ok? && r.value in Ancestors(commits, h1, |commits|).value
  {
    match Ancestors(commits, h1, |commits|)
    case Err(m) => Err(m)
    case Ok(anc) => FirstCommon(commits, anc, h2, |commits|)
  }

  /** The entries ReadTree finds for `h`: a tree, or the tree of a commit. */
  function TreeAt(trees: map<Hash, seq<TreeEntry>>, commits: map<Hash, Commit>, h: Hash): Result<seq<TreeEntry>> {
    if h in trees then Ok(trees[h])
    else if h in commits && commits[h].treeHash in trees then Ok(trees[commits[h].treeHash])
    else Err("unknown hash")
  }

  function Prepend(pre: seq<Hash>, r: Result<seq<Hash>>): Result<seq<Hash>> {
    match r
    case Err(m) => Err(m)
    case Ok(rest) => Ok(pre + rest)
  }

  lemma PrependNothing(r: Result<seq<Hash>>)
    ensures Prepend([], r) == r
  {
    match r
    case Ok(rest) => assert [] + rest == rest;
    case Err(_) =>
  }

  lemma PrependStep(pre: seq<Hash>, h: Hash, r: Result<seq<Hash>>)
    ensures Prepend(pre, match r case Err(m) => Err(m) case Ok(rest) => Ok([h] + rest)) == Prepend(pre + [h], r)
  {
    match r
    case Ok(rest) => assert pre + ([h] + rest) == (pre + [h]) + rest;
    case Err(_) =>
  }

  /** FindCommonAncestor finds the FIRST hash of h2's lineage on h1's ancestor list. */
  lemma {:induction false} FirstCommonIsFirst(commits: map<Hash, Commit>, anc: seq<Hash>, h2: Hash, fuel: nat)
    requires FirstCommon(commits, anc, h2, fuel).Ok?
    ensures var l := Lineage(commits, h2, fuel);
      exists k :: 0 <= k < |l| && l[k] == FirstCommon(commits, anc, h2, fuel).value && forall j :: 0 <= j < k ==> l[j] !in anc
    decreases fuel
  {
    if h2 !in anc {
      var l := Lineage(commits, h2, fuel);
      var p := commits[h2].parent;
      FirstCommonIsFirst(commits, anc, p, fuel - 1);
      var l' := Lineage(commits, p, fuel - 1);
      var k' :| 0 <= k' < |l'| && l'[k'] == FirstCommon(commits, anc, p, fuel - 1).value && forall j :: 0 <= j < k' ==> l'[j] !in anc;
      assert l == [h2] + l';
      assert l[k' + 1] == l'[k'];
      forall j | 0 <= j < k' + 1 ensures l[j] !in anc {
        if j > 0 {
          assert l[j] == l'[j - 1];
        }
      }
    } else {
      assert Lineage(commits, h2, fuel)[0] == h2;
    }
  }

  class Repo {
    var blobs: map<Hash, string>
    var trees: map<Hash, seq<TreeEntry>>
    var commits: map<Hash, Commit>
    var refs: map<string, Hash>
    /** SHA-1 in hexadecimal, and the hash of a serialized tree. */
    const sha1: string -> Hash
    const treeDigest: seq<TreeEntry> -> Hash

    /** Every commit hash is a digest, so "" (the zero hash) never names a commit. */
    ghost predicate Valid()
      reads this
    {
      "" !in commits && forall s :: sha1(s) != ""
    }

    /** NewMockRepoForTest: an empty store. */
    constructor (sha1: string -> Hash, treeDigest: seq<TreeEntry> -> Hash)
      requires forall s :: sha1(s) != ""
      ensures Valid() && this.sha1 == sha1 && this.treeDigest == treeDigest
      ensures blobs == map[] && trees == map[] && commits == map[] && refs == map[]
    {
      this.sha1 := sha1;
      this.treeDigest := treeDigest;
      blobs, trees, commits, refs := map[], map[], map[], map[];
    }

    /** StoreData: stores a blob under its digest. */
    method StoreData(data: string) returns (h: Hash)
      modifies this
      ensures h == sha1(data) && blobs == old(blobs)[h := data]
      ensures trees == old(trees) && commits == old(commits) && refs == old(refs)
    {
      h := sha1(data);
      blobs := blobs[h := data];
    }

    /** ReadData: the blob stored under `h`, or "unknown hash". */
    method ReadData(h: Hash) returns (r: Result<string>)
      ensures r.Ok? <==> h in blobs
      ensures r.Ok? ==> r.value == blobs[h]
      ensures r.Err? ==> r.msg == "unknown hash"
    {
      if h !in blobs {
        return Err("unknown hash");
      }
      return Ok(blobs[h]);
    }

    /** StoreTree: stores a tree under the digest of its serialized entries. */
    method StoreTree(entries: seq<TreeEntry>) returns (h: Hash)
      modifies this
      ensures h == treeDigest(entries) && trees == old(trees)[h := entries]
      ensures blobs == old(blobs) && commits == old(commits) && refs == old(refs)
    {
      h := treeDigest(entries);
      trees := trees[h := entries];
    }

    /** StoreCommit: a root commit, hashed from its tree. */
    method StoreCommit(treeHash: Hash) returns (h: Hash)
      requires Valid()
      modifies this
      ensures Valid()
      ensures h == sha1(treeHash) && commits == old(commits)[h := Commit(treeHash, "")]
      ensures blobs == old(blobs) && trees == old(trees) && refs == old(refs)
    {
      h := sha1(treeHash);
      commits := commits[h := Commit(treeHash, "")];
    }

    /** StoreCommitWithParent: a commit recording its parent, hashed from tree and parent. */
    method StoreCommitWithParent(treeHash: Hash, parent: Hash) returns (h: Hash)
      requires Valid()
      modifies this
      ensures Valid()
      ensures h == sha1(treeHash + parent) && commits == old(commits)[h := Commit(treeHash, parent)]
      ensures blobs == old(blobs) && trees == old(trees) && refs == old(refs)
    {
      h := sha1(treeHash + parent);
      commits := commits[h := Commit(treeHash, parent)];
    }

    method UpdateRef(ref: string, h: Hash)
      modifies this
      ensures refs == old(refs)[ref := h]
      ensures blobs == old(blobs) && trees == old(trees) && commits == old(commits)
    {
      refs := refs[ref := h];
    }

    method RemoveRef(ref: string)
      modifies this
      ensures refs == old(refs) - {ref}
      ensures blobs == old(blobs) && trees == old(trees) && commits == old(commits)
    {
      refs := refs - {ref};
    }

    method RefExist(ref: string) returns (b: bool)
      ensures b <==> ref in refs
    {
      b := ref in refs;
    }

    /** CopyRef: points `dest` where `source` points; an unknown source changes nothing. */
    method CopyRef(source: string, dest: string) returns (r: Outcome)
      modifies this
      ensures source !in old(refs) ==> r == Fail("Unknown ref") && refs == old(refs)
      ensures source in old(refs) ==> r == Pass && refs == old(refs)[dest := old(refs)[source]]
      ensures blobs == old(blobs) && trees == old(trees) && commits == old(commits)
    {
      if source !in refs {
        return Fail("Unknown ref");
      }
      refs := refs[dest := refs[source]];
      return Pass;
    }

    /** ListRefs: every ref with the prefix, once each, in map order. */
    method ListRefs(prefix: string) returns (keys: seq<string>)
      ensures forall k :: k in keys <==> k in refs && HasPrefix(k, prefix)
      ensures forall i, j :: 0 <= i < j < |keys| ==> keys[i] != keys[j]
    {
      keys := [];
      var rest := refs.Keys;
      while rest != {}
        invariant rest <= refs.Keys
        invariant forall k :: k in keys <==> k in refs && k !in rest && HasPrefix(k, prefix)
        invariant forall i, j :: 0 <= i < j < |keys| ==> keys[i] != keys[j]
        decreases rest
      {
        var k :| k in rest;
        if HasPrefix(k, prefix) {
          keys := keys + [k];
        }
        rest := rest - {k};
      }
    }

    /** ResolveRef: the hash a ref points to, or "Unknown ref". */
    method ResolveRef(ref: string) returns (r: Result<Hash>)
      ensures r.Ok? <==> ref in refs
      ensures r.Ok? ==> r.value == refs[ref]
      ensures r.Err? ==> r.msg == "Unknown ref"
    {
      if ref in refs {
        return Ok(refs[ref]);
      }
      return Err("Unknown ref");
    }

    /** ListCommits: the commits from the ref back to the root, oldest first; an unknown ref
        reads as the zero hash and gives no commits. The walk is bounded by the number of
        commits: a chain longer than that would be a cycle, on which the Go code loops forever. */
    method ListCommits(ref: string) returns (hashes: seq<Hash>)
      requires Valid()
      ensures hashes == Chain(commits, if ref in refs then refs[ref] else "", |commits|)
      ensures ref !in refs ==> hashes == []
    {
      hashes := [];
      var h := if ref in refs then refs[ref] else "";
      var fuel: nat := |commits|;
      while fuel > 0 && h in commits
        invariant fuel <= |commits|
        invariant Chain(commits, h, fuel) + hashes == Chain(commits, if ref in refs then refs[ref] else "", |commits|)
        decreases fuel
      {
        hashes := [h] + hashes;
        h := commits[h].parent;
        fuel := fuel - 1;
      }
    }

    /** ReadTree: the entries of a tree, reached directly or through a commit. */
    method ReadTree(h: Hash) returns (r: Result<seq<TreeEntry>>)
      ensures h in trees ==> r == Ok(trees[h])
      ensures h !in trees && h in commits && commits[h].treeHash in trees ==> r == Ok(trees[commits[h].treeHash])
      ensures h !in trees && (h !in commits || commits[h].treeHash !in trees) ==> r == Err("unknown hash")
      ensures r == TreeAt(trees, commits, h)
    {
      if h in trees {
        return Ok(trees[h]);
      }
      if h !in commits {
        return Err("unknown hash");
      }
      var t := commits[h].treeHash;
      if t !in trees {
        return Err("unknown hash");
      }
      return Ok(trees[t]);
    }

    /** The first walk of FindCommonAncestor: `h` and all its ancestors, ending with "". */
    method CollectAncestors(h: Hash) returns (r: Result<seq<Hash>>)
      ensures r == Ancestors(commits, h, |commits|)
    {
      var ancestors := [h];
      var hash := h;
      ghost var walked: seq<Hash> := [];
      var fuel: nat := |commits|;
      PrependNothing(Ancestors(commits, h, fuel));
      while hash != ""
        invariant fuel <= |commits|
        invariant ancestors == walked + [hash]
        invariant Ancestors(commits, h, |commits|) == Prepend(walked, Ancestors(commits, hash, fuel))
        decreases fuel
      {
        if hash !in commits || fuel == 0 {
          return Err("unknown commit " + hash);
        }
        var p := commits[hash].parent;
        PrependStep(walked, hash, Ancestors(commits, p, fuel - 1));
        ancestors := ancestors + [p];
        walked := walked + [hash];
        hash := p;
        fuel := fuel - 1;
      }
      return Ok(ancestors);
    }

    /** FindCommonAncestor: lists h1 and all its ancestors (ending with ""), then walks h2's
        parents until one is on that list. Both walks are bounded by the number of commits.
        The unknown-commit error of the second walk quotes the first walk's variable, which
        is "" by then. */
    method FindCommonAncestor(h1: Hash, h2: Hash) returns (r: Result<Hash>)
      ensures r == CommonAncestor(commits, h1, h2)
    {
      var collected := CollectAncestors(h1);
      if collected.Err? {
        return Err(collected.msg);
      }
      var ancestor1 := collected.value;
      var hash1: Hash := "";
      var hash2 := h2;
      var fuel: nat := |commits|;
      while true
        invariant fuel <= |commits|
        invariant FirstCommon(commits, ancestor1, h2, |commits|) == FirstCommon(commits, ancestor1, hash2, fuel)
        decreases fuel
      {
        if hash2 in ancestor1 {
          return Ok(hash2);
        }
        if hash2 !in commits {
          return Err("unknown commit " + hash1);
        }
        var p := commits[hash2].parent;
        if p == "" || fuel == 0 {
          return Err("no ancestor found");
        }
        hash2 := p;
        fuel := fuel - 1;
      }
    }

    /** GetTreeHash: the tree of a commit, or "unknown commit". */
    method GetTreeHash(h: Hash) returns (r: Result<Hash>)
      ensures r.Ok? <==> h in commits
      ensures r.Ok? ==> r.value == commits[h].treeHash
      ensures r.Err? ==> r.msg == "unknown commit"
    {
      if h !in commits {
        return Err("unknown commit");
      }
      return Ok(commits[h].treeHash);
    }
  }

  /** A commit stored with a parent lists that parent just before itself. */
  lemma ChainThroughParent(commits: map<Hash, Commit>, h: Hash, tree: Hash, parent: Hash, fuel: nat)
    requires fuel > 0
    ensures var c := commits[h := Commit(tree, parent)];
      Chain(c, h, fuel) == Chain(c, parent, fuel - 1) + [h]
  {
  }
}
