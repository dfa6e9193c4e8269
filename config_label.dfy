/** The repository's label configuration (config/label.go): a tree of simple labels and
    prefixes, its flattened map, lookup, and the insertion of a new colon-separated label. */
module ConfigLabel {
  import opened Wrappers
  import opened StrUtil

  type Label = string

  /** A node of the serialized label tree. */
  datatype LabelNode =
    | Simple(name: string, message: string)
    | Compound(prefix: string, inner: seq<LabelNode>, message: string)

  /** A flattened label: its full name and its deprecation message ("" when not deprecated). */
  datatype FlatLabel = FlatLabel(name: string, message: string)

  /** The configuration kept per flattened label. */
  datatype SingleLabelConfig = SingleLabelConfig(message: string)

  /** What a compound node does to each label below it: a non-empty message overrides. */
  function Wrap(prefix: string, message: string, l: FlatLabel): FlatLabel {
    FlatLabel(prefix + ":" + l.name, if message != "" then message else l.message)
  }

  function WrapAll(prefix: string, message: string, ls: seq<FlatLabel>): (r: seq<FlatLabel>)
    ensures |r| == |ls|
    ensures forall i :: 0 <= i < |ls| ==> r[i] == Wrap(prefix, message, ls[i])
  {
    seq(|ls|, i requires 0 <= i < |ls| => Wrap(prefix, message, ls[i]))
  }

  /** compoundLabelConfig.Labels / simpleLabelConfig.Labels: the labels a node stands for. */
  function Flatten(n: LabelNode): seq<FlatLabel>
    decreases n, 1
  {
    match n
    case Simple(name, m) => [FlatLabel(name, m)]
    case Compound(p, inner, m) => WrapAll(p, m, FlattenAll(inner))
  }

  function FlattenAll(ns: seq<LabelNode>): seq<FlatLabel>
    decreases ns, 0
  {
    if ns == [] then [] else Flatten(ns[0]) + FlattenAll(ns[1..])
  }

  function Names(ls: seq<FlatLabel>): set<string> {
    set l | l in ls :: l.name
  }

  /** The names `p:n` for every `n` in `s`. */
  function Prefixed(p: string, s: set<string>): set<string> {
    set n | n in s :: p + ":" + n
  }

  /** A compound node names exactly its prefix joined to each name below it. */
  lemma CompoundNames(p: string, inner: seq<LabelNode>, m: string)
    ensures Names(Flatten(Compound(p, inner, m))) == Prefixed(p, Names(FlattenAll(inner)))
  {
    var ls := FlattenAll(inner);
    var w := WrapAll(p, m, ls);
    forall x | x in Names(w) ensures x in Prefixed(p, Names(ls)) {
      var l :| l in w && l.name == x;
      var k :| 0 <= k < |w| && w[k] == l;
      assert ls[k] in ls;
    }
    forall x | x in Prefixed(p, Names(ls)) ensures x in Names(w) {
      var n :| n in Names(ls) && x == p + ":" + n;
      var l :| l in ls && l.name == n;
      var k :| 0 <= k < |ls| && ls[k] == l;
      assert w[k] in w;
    }
  }

  /** A compound with a non-empty message gives that message to every label below it. */
  lemma DeprecationOverrides(n: LabelNode, l: FlatLabel)
    requires n.Compound? && n.message != "" && l in Flatten(n)
    ensures l.message == n.message && HasPrefix(l.name, n.prefix + ":")
  {
    var k :| 0 <= k < |Flatten(n)| && Flatten(n)[k] == l;
    var ls := FlattenAll(n.inner);
    assert l.name == (n.prefix + ":") + ls[k].name;
  }

  lemma {:induction false} NamesConcat(a: seq<FlatLabel>, b: seq<FlatLabel>)
    ensures Names(a + b) == Names(a) + Names(b)
  {
    forall x | x in Names(a + b) ensures x in Names(a) + Names(b) {
      var l :| l in a + b && l.name == x;
    }
    forall x | x in Names(a) + Names(b) ensures x in Names(a + b) {
      if x in Names(a) {
        var l :| l in a && l.name == x;
        assert l in a + b;
      } else {
        var l :| l in b && l.name == x;
        assert l in a + b;
      }
    }
  }

  lemma NamesCons(ls: seq<FlatLabel>)
    requires ls != []
    ensures Names(ls) == {ls[0].name} + Names(ls[1..])
  {
    assert ls == [ls[0]] + ls[1..];
    NamesConcat([ls[0]], ls[1..]);
    assert Names([ls[0]]) == {ls[0].name};
  }

  lemma {:induction false} FlattenAllConcat(a: seq<LabelNode>, b: seq<LabelNode>)
    ensures FlattenAll(a + b) == FlattenAll(a) + FlattenAll(b)
  {
    if a == [] {
      assert a + b == b;
    } else {
      assert (a + b)[1..] == a[1..] + b;
      FlattenAllConcat(a[1..], b);
    }
  }

  /** The names of a level split around its k-th node. */
  lemma LevelNamesAt(level: seq<LabelNode>, k: nat)
    requires k < |level|
    ensures Names(FlattenAll(level)) ==
      Names(FlattenAll(level[..k])) + Names(Flatten(level[k])) + Names(FlattenAll(level[k + 1..]))
  {
    FlattenAllAt(level, k);
    NamesConcat(FlattenAll(level[..k]), Flatten(level[k]) + FlattenAll(level[k + 1..]));
    NamesConcat(Flatten(level[k]), FlattenAll(level[k + 1..]));
  }

  /** The labels of a level split around its k-th node. */
  lemma FlattenAllAt(level: seq<LabelNode>, k: nat)
    requires k < |level|
    ensures FlattenAll(level) == FlattenAll(level[..k]) + (Flatten(level[k]) + FlattenAll(level[k + 1..]))
  {
    var tail := [level[k]] + level[k + 1..];
    assert level == level[..k] + tail;
    FlattenAllConcat(level[..k], tail);
    assert tail[1..] == level[k + 1..];
  }

  /** The outcome of scanning one level for a prefix. */
  datatype Scan = Conflict | Found(index: nat) | Missing

  /** The scan of one level for `name`, in order: a simple label of that name met before any
      compound of that prefix is a conflict; the first such compound is the one to descend into. */
  function ScanLevel(level: seq<LabelNode>, name: string): (r: Scan)
    ensures r.Found? ==> r.index < |level| && level[r.index].Compound? && level[r.index].prefix == name
    ensures r.Missing? ==> forall j :: 0 <= j < |level| ==>
      !(level[j].Simple? && level[j].name == name) && !(level[j].Compound? && level[j].prefix == name)
  {
    if level == [] then Missing
    else if level[0].Simple? && level[0].name == name then Conflict
    else if level[0].Compound? && level[0].prefix == name then Found(0)
    else match ScanLevel(level[1..], name)
      case Found(k) => Found(k + 1)
      case other => other
  }

  /** Whether the deepest level already holds an entry named `name`. */
  predicate Taken(level: seq<LabelNode>, name: string) {
    exists j :: 0 <= j < |level| &&
      ((level[j].Simple? && level[j].name == name) || (level[j].Compound? && level[j].prefix == name))
  }

  function AllocatedMessage(name: string): string {
    "A label with name " + name + " is already allocated"
  }

  /** The walk of AppendLabelToConfiguration below `level`: one compound level per remaining
      prefix (created when missing), then the new simple label at the deepest level. Returns the
      rebuilt level and the outcome; `walked` are the prefixes already descended through and
      `full` is the whole label. Compounds created before a failure stay in the tree. */
  function Insert(level: seq<LabelNode>, walked: seq<string>, prefixes: seq<string>, last: string, full: string)
    : (seq<LabelNode>, Outcome)
    decreases |prefixes|
  {
    if prefixes == [] then
      if Taken(level, last) then (level, Fail(AllocatedMessage(full)))
      else (level + [Simple(last, "")], Pass)
    else
      match ScanLevel(level, prefixes[0])
      case Conflict => (level, Fail(AllocatedMessage(Join(walked + [prefixes[0]], ":"))))
      case Found(k) =>
        var (inner, o) := Insert(level[k].inner, walked + [prefixes[0]], prefixes[1..], last, full);
        (level[k := level[k].(inner := inner)], o)
      case Missing =>
        var (inner, o) := Insert([], walked + [prefixes[0]], prefixes[1..], last, full);
        (level + [Compound(prefixes[0], inner, "")], o)
  }

  lemma JoinCons(p: string, rest: seq<string>)
    requires |rest| >= 1
    ensures Join([p] + rest, ":") == p + ":" + Join(rest, ":")
  {
    assert ([p] + rest)[1..] == rest;
  }

  /** Replacing the inner nodes of the k-th compound of a level by ones naming one more name. */
  lemma DescendNames(level: seq<LabelNode>, k: nat, inner: seq<LabelNode>, added: set<string>)
    requires k < |level| && level[k].Compound?
    requires Names(FlattenAll(inner)) == Names(FlattenAll(level[k].inner)) + added
    ensures Names(FlattenAll(level[k := level[k].(inner := inner)])) ==
      Names(FlattenAll(level)) + Prefixed(level[k].prefix, added)
  {
    var lv := level[k := level[k].(inner := inner)];
    LevelNamesAt(level, k);
    LevelNamesAt(lv, k);
    assert lv[..k] == level[..k] && lv[k + 1..] == level[k + 1..];
    CompoundNames(level[k].prefix, level[k].inner, level[k].message);
    CompoundNames(level[k].prefix, inner, level[k].message);
  }

  /** Appending a new compound whose inner nodes name `added`. */
  lemma AppendCompoundNames(level: seq<LabelNode>, p: string, inner: seq<LabelNode>, added: set<string>)
    requires Names(FlattenAll(inner)) == added
    ensures Names(FlattenAll(level + [Compound(p, inner, "")])) == Names(FlattenAll(level)) + Prefixed(p, added)
  {
    FlattenAllConcat(level, [Compound(p, inner, "")]);
    NamesConcat(FlattenAll(level), FlattenAll([Compound(p, inner, "")]));
    assert FlattenAll([Compound(p, inner, "")]) == Flatten(Compound(p, inner, ""));
    CompoundNames(p, inner, "");
  }

  /** Appending a simple label names one more name. */
  lemma AppendSimpleNames(level: seq<LabelNode>, last: string)
    ensures Names(FlattenAll(level + [Simple(last, "")])) == Names(FlattenAll(level)) + {last}
  {
    FlattenAllConcat(level, [Simple(last, "")]);
    NamesConcat(FlattenAll(level), FlattenAll([Simple(last, "")]));
    assert FlattenAll([Simple(last, "")]) == [FlatLabel(last, "")];
    assert Names([FlatLabel(last, "")]) == {last};
  }

  /** Insertion adds exactly the joined path to the flattened names on success and changes no
      name on failure (an empty compound names nothing). */
  lemma {:induction false} InsertNames(level: seq<LabelNode>, walked: seq<string>, prefixes: seq<string>, last: string, full: string)
    ensures var (lv, o) := Insert(level, walked, prefixes, last, full);
      Names(FlattenAll(lv)) == Names(FlattenAll(level)) + (if o.Pass? then {Join(prefixes + [last], ":")} else {})
    decreases |prefixes|
  {
    if prefixes == [] {
      if !Taken(level, last) {
        AppendSimpleNames(level, last);
        assert [] + [last] == [last];
      }
    } else {
      var p := prefixes[0];
      var rest := Join(prefixes[1..] + [last], ":");
      assert prefixes + [last] == [p] + (prefixes[1..] + [last]);
      JoinCons(p, prefixes[1..] + [last]);
      var (inner, o) := Insert(if ScanLevel(level, p).Found? then level[ScanLevel(level, p).index].inner else [],
        walked + [p], prefixes[1..], last, full);
      var added: set<string> := if o.Pass? then {rest} else {};
      assert Prefixed(p, added) == if o.Pass? then {p + ":" + rest} else {};
      match ScanLevel(level, p)
      case Conflict =>
      case Found(k) =>
        InsertNames(level[k].inner, walked + [p], prefixes[1..], last, full);
        DescendNames(level, k, inner, added);
      case Missing =>
        InsertNames([], walked + [p], prefixes[1..], last, full);
        AppendCompoundNames(level, p, inner, added);
    }
  }

  /** LabelConfig: the flattened map and the serialized tree it was built from. */
  class LabelConfig {
    var flatMap: map<Label, SingleLabelConfig>
    var serialized: seq<LabelNode>

    /** The map's keys are the names the tree flattens to. */
    ghost predicate Valid()
      reads this
    {
      flatMap.Keys == Names(FlattenAll(serialized))
    }

    /** A configuration built by parseLabelConfig from a decoded tree. */
    constructor (tree: seq<LabelNode>, m: map<Label, SingleLabelConfig>)
      requires InsertAll(map[], FlattenAll(tree)) == Ok(m)
      ensures Valid() && serialized == tree && flatMap == m
    {
      serialized := tree;
      flatMap := m;
      InsertAllContents(map[], FlattenAll(tree));
    }

    /** LabelConfig.GetLabelConfig: the stored configuration of a known label, else an error. */
    function GetLabelConfig(l: Label): (r: Result<SingleLabelConfig>)
      reads this
      ensures r.Ok? <==> l in flatMap
      ensures r.Ok? ==> r.value == flatMap[l]
      ensures r.Err? ==> r.msg == "Label " + l + " does not exist"
    {
      if l in flatMap then Ok(flatMap[l]) else Err("Label " + l + " does not exist")
    }

    /** AppendLabelToConfiguration: inserts the label into the tree and, on success, into the
        map with an empty deprecation message. The map stays in step with the tree. */
    method AppendLabelToConfiguration(lbl: Label) returns (r: Outcome)
      requires Valid()
      modifies this
      ensures Valid()
      ensures var parts := Split(lbl, ':');
        (serialized, r) == Insert(old(serialized), [], parts[..|parts| - 1], parts[|parts| - 1], lbl)
      ensures r.Pass? ==> flatMap == old(flatMap)[lbl := SingleLabelConfig("")]
      ensures r.Fail? ==> flatMap == old(flatMap)
      ensures r.Pass? ==> Names(FlattenAll(serialized)) == Names(FlattenAll(old(serialized))) + {lbl}
    {
      var parts := Split(lbl, ':');
      var prefixes := parts[..|parts| - 1];
      var last := parts[|parts| - 1];
      SplitJoin(lbl, ':');
      assert prefixes + [last] == parts;
      InsertNames(serialized, [], prefixes, last, Join(parts, [':']));
      var (lv, o) := Insert(serialized, [], prefixes, last, lbl);
      serialized := lv;
      if o.Pass? {
        flatMap := flatMap[lbl := SingleLabelConfig("")];
      }
      r := o;
    }
  }

  /** Adds the flattened labels to the map in order, refusing the first name already present. */
  function InsertAll(m: map<Label, SingleLabelConfig>, ls: seq<FlatLabel>): Result<map<Label, SingleLabelConfig>>
    decreases |ls|
  {
    if ls == [] then Ok(m)
    else if ls[0].name in m then Err("Duplicated rule for label " + ls[0].name + " in configuration")
    else InsertAll(m[ls[0].name := SingleLabelConfig(ls[0].message)], ls[1..])
  }

  predicate Distinct(ls: seq<FlatLabel>) {
    forall i, j :: 0 <= i < j < |ls| ==> ls[i].name != ls[j].name
  }

  /** Building the map succeeds exactly when the flattened names are distinct and new. */
  lemma {:induction false} InsertAllOk(m: map<Label, SingleLabelConfig>, ls: seq<FlatLabel>)
    ensures InsertAll(m, ls).Ok? <==> (Distinct(ls) && forall i :: 0 <= i < |ls| ==> ls[i].name !in m)
    decreases |ls|
  {
    if ls != [] {
      var m' := m[ls[0].name := SingleLabelConfig(ls[0].message)];
      InsertAllOk(m', ls[1..]);
      if InsertAll(m, ls).Ok? {
        forall i, j | 0 <= i < j < |ls| ensures ls[i].name != ls[j].name {
          if i > 0 {
            assert ls[1..][i - 1].name != ls[1..][j - 1].name;
          } else {
            assert ls[1..][j - 1].name !in m';
          }
        }
        forall i | 0 <= i < |ls| ensures ls[i].name !in m {
          if i > 0 {
            assert ls[1..][i - 1].name !in m';
          }
        }
      } else if ls[0].name !in m && Distinct(ls) && forall i :: 0 <= i < |ls| ==> ls[i].name !in m {
        forall i | 0 <= i < |ls[1..]| ensures ls[1..][i].name !in m' {
          assert ls[0].name != ls[i + 1].name;
        }
        forall i, j | 0 <= i < j < |ls| - 1 ensures ls[1..][i].name != ls[1..][j].name {
          assert ls[i + 1].name != ls[j + 1].name;
        }
        assert false;
      }
    }
  }

  /** A successful build maps exactly the old keys and the flattened names, keeps the old
      entries and gives each name its own deprecation message. */
  lemma {:induction false} InsertAllContents(m: map<Label, SingleLabelConfig>, ls: seq<FlatLabel>)
    requires InsertAll(m, ls).Ok?
    ensures InsertAll(m, ls).value.Keys == m.Keys + Names(ls)
    ensures forall k :: k in m ==> InsertAll(m, ls).value[k] == m[k]
    ensures forall i :: 0 <= i < |ls| ==> InsertAll(m, ls).value[ls[i].name] == SingleLabelConfig(ls[i].message)
    decreases |ls|
  {
    if ls != [] {
      var m' := m[ls[0].name := SingleLabelConfig(ls[0].message)];
      var r := InsertAll(m, ls).value;
      assert InsertAll(m, ls) == InsertAll(m', ls[1..]);
      InsertAllContents(m', ls[1..]);
      NamesCons(ls);
      assert r[ls[0].name] == SingleLabelConfig(ls[0].message);
      forall i | 0 < i < |ls|
        ensures r[ls[i].name] == SingleLabelConfig(ls[i].message)
      {
        assert ls[1..][i - 1] == ls[i];
      }
    }
  }

  /** parseLabelConfig, on an already decoded tree: flattens each top-level node and fills the
      map, failing on the first duplicated name. */
  method ParseLabelConfig(tree: seq<LabelNode>) returns (r: Result<map<Label, SingleLabelConfig>>)
    ensures r == InsertAll(map[], FlattenAll(tree))
  {
    var m: map<Label, SingleLabelConfig> := map[];
    var i := 0;
    while i < |tree|
      invariant 0 <= i <= |tree|
      invariant InsertAll(map[], FlattenAll(tree)) == InsertAll(m, FlattenAll(tree[i..]))
    {
      assert tree[i..][1..] == tree[i + 1..];
      var labels := Flatten(tree[i]);
      assert labels[0..] == labels;
      var j := 0;
      while j < |labels|
        invariant 0 <= j <= |labels|
        invariant InsertAll(map[], FlattenAll(tree)) == InsertAll(m, labels[j..] + FlattenAll(tree[i + 1..]))
      {
        var l := labels[j];
        assert (labels[j..] + FlattenAll(tree[i + 1..]))[1..] == labels[j + 1..] + FlattenAll(tree[i + 1..]);
        if l.name in m {
          return Err("Duplicated rule for label " + l.name + " in configuration");
        }
        m := m[l.name := SingleLabelConfig(l.message)];
        j := j + 1;
      }
      assert labels[j..] + FlattenAll(tree[i + 1..]) == FlattenAll(tree[i + 1..]);
      i := i + 1;
    }
    assert tree[i..] == [];
    return Ok(m);
  }
}
