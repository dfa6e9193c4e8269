/** Ticket labels (bug/label.go): colours, validation, the checklist/workflow kinds, and the
    flattening of the configured label tree into a map from label to its configuration. */
module BugLabel {
  import opened Wrappers
  import opened StrUtil

  type Label = string

  /** A byte of a digest. */
  type Byte = b: int | 0 <= b < 256

  datatype LabelColor = LabelColor(r: Byte, g: Byte, b: Byte, a: Byte)

  /** The nineteen material-design colours labels are drawn from. */
  const Palette: seq<LabelColor> := [
    LabelColor(244, 67, 54, 255), LabelColor(233, 30, 99, 255), LabelColor(156, 39, 176, 255),
    LabelColor(103, 58, 183, 255), LabelColor(63, 81, 181, 255), LabelColor(33, 150, 243, 255),
    LabelColor(3, 169, 244, 255), LabelColor(0, 188, 212, 255), LabelColor(0, 150, 136, 255),
    LabelColor(76, 175, 80, 255), LabelColor(139, 195, 74, 255), LabelColor(205, 220, 57, 255),
    LabelColor(255, 235, 59, 255), LabelColor(255, 193, 7, 255), LabelColor(255, 152, 0, 255),
    LabelColor(255, 87, 34, 255), LabelColor(121, 85, 72, 255), LabelColor(158, 158, 158, 255),
    LabelColor(96, 125, 139, 255)
  ]

  function Sum(bs: seq<Byte>): nat {
    if bs == [] then 0 else Sum(bs[..|bs| - 1]) + bs[|bs| - 1]
  }

  /** Label.Color: sums the bytes of the label's SHA-256 digest modulo the palette size.
      The digest is computed outside the model and passed in. */
  method Color(digest: seq<Byte>) returns (c: LabelColor)
    ensures c == Palette[Sum(digest) % |Palette|]
  {
    var id := 0;
    var i := 0;
    while i < |digest|
      invariant 0 <= i <= |digest|
      invariant id == Sum(digest[..i]) % |Palette|
    {
      SumStep(digest, i);
      id := (id + digest[i]) % |Palette|;
      i := i + 1;
    }
    assert digest[..i] == digest;
    c := Palette[id];
  }

  /** The running sum modulo the palette size after one more byte. */
  lemma SumStep(digest: seq<Byte>, i: nat)
    requires i < |digest|
    ensures (Sum(digest[..i]) % |Palette| + digest[i]) % |Palette| == Sum(digest[..i + 1]) % |Palette|
  {
    assert digest[..i + 1][..i] == digest[..i];
    assert Sum(digest[..i + 1]) == Sum(digest[..i]) + digest[i];
    assert |Palette| == 19;
    ModAdd19(Sum(digest[..i]), digest[i]);
  }

  lemma ModAdd19(s: nat, b: nat)
    ensures (s % 19 + b) % 19 == (s + b) % 19
  {
  }

  /** Summing distributes over concatenation. */
  lemma {:induction false} SumAppend(a: seq<Byte>, b: seq<Byte>)
    ensures Sum(a + b) == Sum(a) + Sum(b)
    decreases |b|
  {
    if b == [] {
      assert a + b == a;
    } else {
      SumAppend(a, b[..|b| - 1]);
      assert (a + b)[..|a + b| - 1] == a + b[..|b| - 1];
    }
  }

  /** The byte sum depends only on which bytes occur how often, not on their order. */
  lemma {:induction false} SumPermutation(d1: seq<Byte>, d2: seq<Byte>)
    requires multiset(d1) == multiset(d2)
    ensures Sum(d1) == Sum(d2)
    decreases |d1|
  {
    if d1 == [] {
      assert |d2| == |multiset(d2)| == 0;
    } else {
      var n := |d1|;
      var x := d1[n - 1];
      assert d1 == d1[..n - 1] + [x];
      assert x in multiset(d2);
      var j :| 0 <= j < |d2| && d2[j] == x;
      var rest := d2[..j] + d2[j + 1..];
      assert d2 == d2[..j] + [x] + d2[j + 1..];
      assert multiset(rest) == multiset(d2) - multiset{x};
      assert multiset(d1[..n - 1]) == multiset(d1) - multiset{x};
      SumPermutation(d1[..n - 1], rest);
      SumAppend(d2[..j], [x]);
      SumAppend(d2[..j] + [x], d2[j + 1..]);
      SumAppend(d2[..j], d2[j + 1..]);
    }
  }

  /** A label's colour is drawn from the palette and depends only on the bytes of its
      digest, not on their order: digests that are permutations of each other give the
      same colour. */
  lemma ColorIgnoresByteOrder(d1: seq<Byte>, d2: seq<Byte>)
    requires multiset(d1) == multiset(d2)
    ensures Palette[Sum(d1) % |Palette|] == Palette[Sum(d2) % |Palette|]
    ensures Palette[Sum(d1) % |Palette|] in Palette
  {
    SumPermutation(d1, d2);
  }

  /** Which sixth of the 0..255 range a channel falls in. */
  function Sixth(x: Byte): (s: int)
    ensures 0 <= s <= 5
  {
    x * 6 / 256
  }

  /** LabelColor.Term256: the colour's cell in the 6x6x6 cube of the 256-colour terminal palette. */
  function Term256(lc: LabelColor): (t: int)
    ensures 16 <= t <= 231
  {
    var red := Sixth(lc.r);
    var green := Sixth(lc.g);
    var blue := Sixth(lc.b);
    red * 36 + green * 6 + blue + 16
  }

  /** Two colours share a terminal colour exactly when each channel falls in the same sixth. */
  lemma Term256Injective(x: LabelColor, y: LabelColor)
    ensures Term256(x) == Term256(y) <==> Sixth(x.r) == Sixth(y.r) && Sixth(x.g) == Sixth(y.g) && Sixth(x.b) == Sixth(y.b)
  {
    Base6Unique(Sixth(x.r), Sixth(x.g), Sixth(x.b), Sixth(y.r), Sixth(y.g), Sixth(y.b));
  }

  /** Three base-6 digits are fixed by the number they make. */
  lemma Base6Unique(a: int, b: int, c: int, x: int, y: int, z: int)
    requires 0 <= a <= 5 && 0 <= b <= 5 && 0 <= c <= 5 && 0 <= x <= 5 && 0 <= y <= 5 && 0 <= z <= 5
    ensures a * 36 + b * 6 + c == x * 36 + y * 6 + z ==> a == x && b == y && c == z
  {
  }

  /** Label.Validate; `empty` and `safe` stand for text.Empty and text.Safe. */
  function Validate(l: Label, empty: string -> bool, safe: string -> bool): (r: Outcome)
    ensures r.Pass? <==> !empty(l) && '\n' !in l && safe(l)
    ensures empty(l) ==> r == Fail("empty")
    ensures !empty(l) && '\n' in l ==> r == Fail("should be a single line")
  {
    if empty(l) then Fail("empty")
    else if '\n' in l then Fail("should be a single line")
    else if !safe(l) then Fail("not fully printable")
    else Pass
  }

  predicate IsChecklist(l: Label) {
    HasPrefix(l, "checklist:")
  }

  predicate IsWorkflow(l: Label) {
    HasPrefix(l, "workflow:")
  }

  /** No label is both a checklist and a workflow label. */
  lemma ChecklistNotWorkflow(l: Label)
    ensures !(IsChecklist(l) && IsWorkflow(l))
  {
    if IsChecklist(l) {
      assert l[0] == "checklist:"[0];
    }
  }

  /** A node of the configured label tree: a simple label, or a prefix over inner nodes. */
  datatype LabelNode =
    | Simple(name: string, deprecated: bool, message: string)
    | Compound(prefix: string, inner: seq<LabelNode>, deprecated: bool, message: string)

  /** A flattened label with its full name. */
  datatype SimpleLabel = SimpleLabel(name: string, deprecated: bool, message: string)

  /** What a compound node does to each label below it. */
  function Wrap(prefix: string, deprecated: bool, message: string, l: SimpleLabel): SimpleLabel {
    SimpleLabel(prefix + ":" + l.name,
      if deprecated then true else l.deprecated,
      if deprecated then message else l.message)
  }

  function WrapAll(prefix: string, deprecated: bool, message: string, ls: seq<SimpleLabel>): (r: seq<SimpleLabel>)
    ensures |r| == |ls|
    ensures forall i :: 0 <= i < |ls| ==> r[i] == Wrap(prefix, deprecated, message, ls[i])
  {
    seq(|ls|, i requires 0 <= i < |ls| => Wrap(prefix, deprecated, message, ls[i]))
  }

  /** The labels a node stands for, in tree order. */
  function Flatten(n: LabelNode): seq<SimpleLabel>
    decreases n, 1
  {
    match n
    case Simple(name, d, m) => [SimpleLabel(name, d, m)]
    case Compound(p, inner, d, m) => WrapAll(p, d, m, FlattenAll(inner))
  }

  function FlattenAll(ns: seq<LabelNode>): seq<SimpleLabel>
    decreases ns, 0
  {
    if ns == [] then [] else Flatten(ns[0]) + FlattenAll(ns[1..])
  }

  lemma {:induction false} FlattenAllSnoc(ns: seq<LabelNode>, n: LabelNode)
    ensures FlattenAll(ns + [n]) == FlattenAll(ns) + Flatten(n)
  {
    if ns == [] {
      assert ns + [n] == [n];
    } else {
      assert (ns + [n])[1..] == ns[1..] + [n];
      FlattenAllSnoc(ns[1..], n);
    }
  }

  /** compoundlabelConfig.Labels: expands the inner nodes one by one, prefixing every name. */
  method Labels(n: LabelNode) returns (r: seq<SimpleLabel>)
    ensures r == Flatten(n)
    decreases n
  {
    match n
    case Simple(name, d, m) =>
      r := [SimpleLabel(name, d, m)];
    case Compound(p, inner, d, m) =>
      r := [];
      var i := 0;
      while i < |inner|
        invariant 0 <= i <= |inner|
        invariant r == WrapAll(p, d, m, FlattenAll(inner[..i]))
      {
        var innerLabels := Labels(inner[i]);
        r := AppendWrapped(r, p, d, m, innerLabels);
        assert inner[..i + 1] == inner[..i] + [inner[i]];
        FlattenAllSnoc(inner[..i], inner[i]);
        WrapAllConcat(p, d, m, FlattenAll(inner[..i]), innerLabels);
        i := i + 1;
      }
      assert inner[..i] == inner;
  }

  /** The inner loop of compoundlabelConfig.Labels: appends each inner label, prefixed and
      carrying the compound's deprecation when it has one. */
  method AppendWrapped(r0: seq<SimpleLabel>, p: string, d: bool, m: string, ls: seq<SimpleLabel>) returns (r: seq<SimpleLabel>)
    ensures r == r0 + WrapAll(p, d, m, ls)
  {
    r := r0;
    var j := 0;
    while j < |ls|
      invariant 0 <= j <= |ls|
      invariant r == r0 + WrapAll(p, d, m, ls[..j])
    {
      var l := ls[j];
      if d {
        l := l.(deprecated := true, message := m);
      }
      l := l.(name := p + ":" + l.name);
      WrapAllConcat(p, d, m, ls[..j], [ls[j]]);
      assert ls[..j + 1] == ls[..j] + [ls[j]];
      r := r + [l];
      j := j + 1;
    }
    assert ls[..j] == ls;
  }

  lemma WrapAllConcat(p: string, d: bool, m: string, a: seq<SimpleLabel>, b: seq<SimpleLabel>)
    ensures WrapAll(p, d, m, a + b) == WrapAll(p, d, m, a) + WrapAll(p, d, m, b)
  {
    var w := WrapAll(p, d, m, a) + WrapAll(p, d, m, b);
    assert forall i :: 0 <= i < |a| + |b| ==> (a + b)[i] == if i < |a| then a[i] else b[i - |a|];
    assert forall i :: 0 <= i < |a| + |b| ==> w[i] == Wrap(p, d, m, (a + b)[i]);
  }

  /** Every label under a compound node carries its prefix. */
  lemma CompoundPrefixes(n: LabelNode, l: SimpleLabel)
    requires n.Compound? && l in Flatten(n)
    ensures HasPrefix(l.name, n.prefix + ":")
  {
    var k :| 0 <= k < |Flatten(n)| && Flatten(n)[k] == l;
    var ls := FlattenAll(n.inner);
    assert l == Wrap(n.prefix, n.deprecated, n.message, ls[k]);
    assert l.name == (n.prefix + ":") + ls[k].name;
  }

  /** A deprecated compound marks every label below it deprecated, with its own message. */
  lemma DeprecationInherited(n: LabelNode, l: SimpleLabel)
    requires n.Compound? && n.deprecated && l in Flatten(n)
    ensures l.deprecated && l.message == n.message
  {
    var k :| 0 <= k < |Flatten(n)| && Flatten(n)[k] == l;
  }

  /** A label's stored configuration. */
  datatype LabelConfig = LabelConfig(deprecated: bool, message: string)

  function NamesOf(ls: seq<SimpleLabel>): seq<string> {
    seq(|ls|, i requires 0 <= i < |ls| => ls[i].name)
  }

  predicate Distinct(names: seq<string>) {
    forall i, j :: 0 <= i < j < |names| ==> names[i] != names[j]
  }

  /** Adds the flattened labels to the map in order, refusing the first name already present. */
  function InsertAll(m: map<Label, LabelConfig>, ls: seq<SimpleLabel>): Result<map<Label, LabelConfig>>
    decreases |ls|
  {
    if ls == [] then Ok(m)
    else if ls[0].name in m then Err("Duplicated rule for label " + ls[0].name + " in configuration")
    else InsertAll(m[ls[0].name := LabelConfig(ls[0].deprecated, ls[0].message)], ls[1..])
  }

  /** Building the map succeeds exactly when the flattened names are distinct and new. */
  lemma {:induction false} InsertAllOk(m: map<Label, LabelConfig>, ls: seq<SimpleLabel>)
    ensures InsertAll(m, ls).Ok? <==> (Distinct(NamesOf(ls)) && forall i :: 0 <= i < |ls| ==> ls[i].name !in m)
    decreases |ls|
  {
    if ls != [] {
      var m' := m[ls[0].name := LabelConfig(ls[0].deprecated, ls[0].message)];
      InsertAllOk(m', ls[1..]);
      if InsertAll(m, ls).Ok? {
        forall i, j | 0 <= i < j < |ls| ensures NamesOf(ls)[i] != NamesOf(ls)[j] {
          if i > 0 {
            assert NamesOf(ls[1..])[i - 1] != NamesOf(ls[1..])[j - 1];
          } else {
            assert ls[1..][j - 1].name !in m';
          }
        }
        forall i | 0 <= i < |ls| ensures ls[i].name !in m {
          if i > 0 {
            assert ls[1..][i - 1].name !in m';
          }
        }
      } else if ls[0].name !in m && Distinct(NamesOf(ls)) && forall i :: 0 <= i < |ls| ==> ls[i].name !in m {
        forall i | 0 <= i < |ls[1..]| ensures ls[1..][i].name !in m' {
          assert NamesOf(ls)[0] != NamesOf(ls)[i + 1];
        }
        forall i, j | 0 <= i < j < |ls| - 1 ensures NamesOf(ls[1..])[i] != NamesOf(ls[1..])[j] {
          assert NamesOf(ls)[i + 1] != NamesOf(ls)[j + 1];
        }
        assert false;
      }
    }
  }

  lemma NamesCons(ls: seq<SimpleLabel>)
    requires ls != []
    ensures (set l | l in ls :: l.name) == {ls[0].name} + set l | l in ls[1..] :: l.name
  {
    assert ls == [ls[0]] + ls[1..];
  }

  /** A successful build maps exactly the old keys and the flattened names, keeps the old
      entries and gives each name its own configuration. */
  lemma {:induction false} InsertAllContents(m: map<Label, LabelConfig>, ls: seq<SimpleLabel>)
    requires InsertAll(m, ls).Ok?
    ensures InsertAll(m, ls).value.Keys == m.Keys + set l | l in ls :: l.name
    ensures forall k :: k in m ==> InsertAll(m, ls).value[k] == m[k]
    ensures forall i :: 0 <= i < |ls| ==> InsertAll(m, ls).value[ls[i].name] == LabelConfig(ls[i].deprecated, ls[i].message)
    decreases |ls|
  {
    if ls != [] {
      var m' := m[ls[0].name := LabelConfig(ls[0].deprecated, ls[0].message)];
      var r := InsertAll(m, ls).value;
      assert InsertAll(m, ls) == InsertAll(m', ls[1..]);
      InsertAllContents(m', ls[1..]);
      NamesCons(ls);
      assert r[ls[0].name] == LabelConfig(ls[0].deprecated, ls[0].message);
      forall i | 0 < i < |ls|
        ensures r[ls[i].name] == LabelConfig(ls[i].deprecated, ls[i].message)
      {
        assert ls[1..][i - 1] == ls[i];
      }
    }
  }

  /** parseConfiguredLabels, on an already decoded label tree: flattens each top-level node and
      fills the map, failing on the first duplicated name. */
  method ParseConfiguredLabels(configs: seq<LabelNode>) returns (r: Result<map<Label, LabelConfig>>)
    ensures r == InsertAll(map[], FlattenAll(configs))
  {
    var m: map<Label, LabelConfig> := map[];
    var i := 0;
    while i < |configs|
      invariant 0 <= i <= |configs|
      invariant InsertAll(map[], FlattenAll(configs)) == InsertAll(m, FlattenAll(configs[i..]))
    {
      assert configs[i..][1..] == configs[i + 1..];
      var labels := Labels(configs[i]);
      InsertAllConcat(m, labels, FlattenAll(configs[i + 1..]));
      var step := InsertEach(m, labels);
      if step.Err? {
        return step;
      }
      m := step.value;
      i := i + 1;
    }
    assert configs[i..] == [];
    return Ok(m);
  }

  /** The inner loop of parseConfiguredLabels: adds the labels of one node in order, refusing
      the first name already present. */
  method InsertEach(m0: map<Label, LabelConfig>, ls: seq<SimpleLabel>) returns (r: Result<map<Label, LabelConfig>>)
    ensures r == InsertAll(m0, ls)
  {
    var m := m0;
    var j := 0;
    while j < |ls|
      invariant 0 <= j <= |ls|
      invariant InsertAll(m0, ls) == InsertAll(m, ls[j..])
    {
      assert ls[j..][1..] == ls[j + 1..];
      if ls[j].name in m {
        return Err("Duplicated rule for label " + ls[j].name + " in configuration");
      }
      m := m[ls[j].name := LabelConfig(ls[j].deprecated, ls[j].message)];
      j := j + 1;
    }
    assert ls[j..] == [];
    return Ok(m);
  }

  /** Building from two runs of labels builds from the first, then from the second. */
  lemma {:induction false} InsertAllConcat(m: map<Label, LabelConfig>, a: seq<SimpleLabel>, b: seq<SimpleLabel>)
    ensures InsertAll(m, a + b) == if InsertAll(m, a).Err? then InsertAll(m, a) else InsertAll(InsertAll(m, a).value, b)
    decreases |a|
  {
    if a == [] {
      assert a + b == b;
    } else {
      assert (a + b)[0] == a[0] && (a + b)[1..] == a[1..] + b;
      if a[0].name !in m {
        InsertAllConcat(m[a[0].name := LabelConfig(a[0].deprecated, a[0].message)], a[1..], b);
      }
    }
  }

  /** The configuration of a label as GetLabelConfig returns it once the labels are loaded,
      AS WRITTEN: the presence test is inverted, so an unknown label gets a zero configuration
      and a configured one gets none. */
  function GetLabelConfigAsWritten(configured: map<Label, LabelConfig>, l: Label): (r: Option<LabelConfig>)
    ensures r.Some? <==> l !in configured
    ensures r.Some? ==> r.value == LabelConfig(false, "")
  {
    if l !in configured then Some(LabelConfig(false, "")) else None
  }

  /** The inverted test answers wrongly for every label: a configured label is reported unknown. */
  lemma GetLabelConfigAsWrittenInverted(configured: map<Label, LabelConfig>, l: Label)
    ensures l in configured ==> GetLabelConfigAsWritten(configured, l).None?
    ensures l !in configured ==> GetLabelConfigAsWritten(configured, l).Some?
    ensures GetLabelConfigAsWritten(configured, l).Some? <==> ConfigOf(configured, l).None?
  {
  }

  /** GetLabelConfig as evidently intended: a label's configuration exactly when it is configured. */
  function ConfigOf(configured: map<Label, LabelConfig>, l: Label): (r: Option<LabelConfig>)
    ensures r.Some? <==> l in configured
    ensures r.Some? ==> r.value == configured[l]
  {
    if l in configured then Some(configured[l]) else None
  }

  /** The process-wide cache of configured labels, read from the repository on first use. */
  class ConfiguredLabels {
    var loaded: Option<map<Label, LabelConfig>>

    constructor ()
      ensures loaded.None?
    {
      loaded := None;
    }

    /** GetLabelConfig with its lazy load: `read` is what reading the "labels" configuration
        and parsing it yields. A failed read leaves nothing cached. The answer is the corrected
        lookup ConfigOf; the inverted lookup as written is GetLabelConfigAsWritten. */
    method GetLabelConfig(l: Label, read: Result<map<Label, LabelConfig>>)
      returns (r: Result<Option<LabelConfig>>)
      modifies this
      ensures old(loaded).Some? ==> loaded == old(loaded)
      ensures old(loaded).None? && read.Ok? ==> loaded == Some(read.value)
      ensures old(loaded).None? && read.Err? ==> loaded.None? && r == Err(read.msg)
      ensures loaded.Some? ==> r == Ok(ConfigOf(loaded.value, l))
    {
      if loaded.None? {
        if read.Err? {
          return Err(read.msg);
        }
        loaded := Some(read.value);
      }
      r := Ok(ConfigOf(loaded.value, l));
    }

    /** ListLabels: the whole configured map, loaded on first use like GetLabelConfig. */
    method ListLabels(read: Result<map<Label, LabelConfig>>) returns (r: Result<map<Label, LabelConfig>>)
      modifies this
      ensures old(loaded).Some? ==> loaded == old(loaded)
      ensures old(loaded).None? && read.Ok? ==> loaded == Some(read.value)
      ensures old(loaded).None? && read.Err? ==> loaded.None? && r == Err(read.msg)
      ensures loaded.Some? ==> r == Ok(loaded.value)
    {
      if loaded.None? {
        if read.Err? {
          return Err(read.msg);
        }
        loaded := Some(read.value);
      }
      r := Ok(loaded.value);
    }
  }
}
