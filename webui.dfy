/** The ticket board of the web UI (webui/webui.go): which status columns the board shows,
    the key a ticket is coloured by and the colour each key gets, the first-match rule of
    cross references, and the template helpers that map states to CSS classes. Identity
    lookups, display names, the identity matcher, Workflow.AllStatuses and the compiled
    regular expressions of the cross-reference rules are parameters. */
module WebUi {
  import opened Wrappers
  import opened Entity
  import opened StrUtil
  import opened Sorting
  import Statuses = Status
  import Workflows
  import BugLabel
  import Snapshots
  import Checklists
  import GiteaReviews
  import QueryAst
  import opened QueryModel
  import opened CacheExcerpts

  // -------------------------------------------------------------- status columns

  /** A status some workflow of the board uses. A nil workflow uses none. */
  ghost predicate UsedBy(workflows: set<Option<Workflows.Workflow>>, statusesOf: Workflows.Workflow -> seq<Statuses.Status>, s: Statuses.Status) {
    exists w :: Some(w) in workflows && s in statusesOf(w)
  }

  lemma PickFrom<T>(s: set<T>)
    requires s != {}
    ensures exists x :: x in s
  {
    var x :| x in s;
  }

  /** determineWorkflowStatuses: the valid statuses any workflow on the board uses, each
      once, in the order of AllStatuses. */
  method DetermineWorkflowStatuses(workflows: set<Option<Workflows.Workflow>>, statusesOf: Workflows.Workflow -> seq<Statuses.Status>)
    returns (r: seq<Statuses.Status>)
    ensures forall s :: s in r <==> Statuses.IsValid(s) && UsedBy(workflows, statusesOf, s)
    ensures forall i, j :: 0 <= i < j < |r| ==> r[i] < r[j]
  {
    var used: set<Statuses.Status> := {};
    var todo := workflows;
    while todo != {}
      invariant todo <= workflows
      invariant forall s :: s in used <==> exists w :: Some(w) in workflows - todo && s in statusesOf(w)
      decreases |todo|
    {
      PickFrom(todo);
      var w :| w in todo;
      if w.Some? {
        used := used + set s | s in statusesOf(w.value);
      }
      todo := todo - {w};
    }
    var all := Statuses.AllStatuses();
    r := [];
    var i := 0;
    while i < |all|
      invariant 0 <= i <= |all|
      invariant forall s :: s in r <==> s in all[..i] && s in used
      invariant forall a, b :: 0 <= a < b < |r| ==> r[a] < r[b]
      invariant i < |all| ==> all[i] == i + 1
      invariant forall a :: 0 <= a < |r| ==> r[a] <= i
    {
      assert all[..i + 1] == all[..i] + [all[i]];
      if all[i] in used {
        r := r + [all[i]];
      }
      i := i + 1;
    }
    assert all[..i] == all;
  }

  // -------------------------------------------------------------- colour keys

  /** The labels that carry the prefix, the prefix removed, in label order. */
  function Trimmed(labels: seq<string>, prefix: string): (r: seq<string>)
    ensures forall x :: x in r <==> exists l :: l in labels && HasPrefix(l, prefix) && x == TrimPrefix(l, prefix)
    decreases |labels|
  {
    if labels == [] then []
    else
      var rest := Trimmed(labels[1..], prefix);
      assert forall l :: l in labels <==> l == labels[0] || l in labels[1..];
      if HasPrefix(labels[0], prefix) then [TrimPrefix(labels[0], prefix)] + rest else rest
  }

  lemma {:induction false} TrimmedAppend(a: seq<string>, b: seq<string>, prefix: string)
    ensures Trimmed(a + b, prefix) == Trimmed(a, prefix) + Trimmed(b, prefix)
    decreases |a|
  {
    if a == [] {
      assert a + b == b;
    } else {
      TrimmedAppend(a[1..], b, prefix);
      assert (a + b)[1..] == a[1..] + b;
    }
  }

  /** Labels that are a permutation of each other trim to a permutation of each other. */
  lemma {:induction false} TrimmedPermutation(xs: seq<string>, ys: seq<string>, prefix: string)
    requires multiset(xs) == multiset(ys)
    ensures multiset(Trimmed(xs, prefix)) == multiset(Trimmed(ys, prefix))
    decreases |xs|
  {
    if xs == [] {
      assert |ys| == |multiset(ys)| == 0;
    } else {
      assert xs[0] in multiset(ys);
      var k :| 0 <= k < |ys| && ys[k] == xs[0];
      var rest := ys[..k] + ys[k + 1..];
      RemoveMatching(xs, ys, k);
      TrimmedPermutation(xs[1..], rest, prefix);
      TrimmedRemove(ys, k, prefix);
      TrimmedRemove(xs, 0, prefix);
      assert xs[..0] + xs[1..] == xs[1..];
    }
  }

  /** Removing the first element of `xs` and a matching one of its permutation `ys` leaves
      permutations. */
  lemma RemoveMatching(xs: seq<string>, ys: seq<string>, k: nat)
    requires multiset(xs) == multiset(ys) && xs != [] && k < |ys| && ys[k] == xs[0]
    ensures multiset(ys[..k] + ys[k + 1..]) == multiset(xs[1..])
  {
    MultisetTail(xs);
    assert ys == ys[..k] + [ys[k]] + ys[k + 1..];
  }

  /** Trimming a sequence trims its k-th element and the rest apart. */
  lemma TrimmedRemove(ys: seq<string>, k: nat, prefix: string)
    requires k < |ys|
    ensures multiset(Trimmed(ys, prefix)) == multiset(Trimmed([ys[k]], prefix)) + multiset(Trimmed(ys[..k] + ys[k + 1..], prefix))
  {
    assert ys == ys[..k] + [ys[k]] + ys[k + 1..];
    TrimmedAppend(ys[..k] + [ys[k]], ys[k + 1..], prefix);
    TrimmedAppend(ys[..k], [ys[k]], prefix);
    TrimmedAppend(ys[..k], ys[k + 1..], prefix);
  }

  /** The colour key of coloring by label: the prefixed labels, prefix removed, sorted and
      joined by single spaces. */
  function LabelKey(labels: seq<string>, prefix: string): string {
    Join(SortStrings(Trimmed(labels, prefix)), " ")
  }

  /** The label key does not depend on the order of the ticket's labels. */
  lemma LabelKeyOrderInsensitive(xs: seq<string>, ys: seq<string>, prefix: string)
    requires multiset(xs) == multiset(ys)
    ensures LabelKey(xs, prefix) == LabelKey(ys, prefix)
  {
    TrimmedPermutation(xs, ys, prefix);
    SortStringsPermutation(Trimmed(xs, prefix), Trimmed(ys, prefix));
  }

  /** The words of the label key, when none holds a space, are the trimmed labels in
      ascending order. */
  lemma LabelKeyWords(labels: seq<string>, prefix: string)
    requires forall x :: x in Trimmed(labels, prefix) ==> ' ' !in x
    requires Trimmed(labels, prefix) != []
    ensures var words := Split(LabelKey(labels, prefix), ' ');
      SortedStrings(words) && multiset(words) == multiset(Trimmed(labels, prefix))
  {
    var t := Trimmed(labels, prefix);
    var sorted := SortStrings(t);
    SortStringsSorted(t);
    forall i | 0 <= i < |sorted| ensures ' ' !in sorted[i] {
      assert sorted[i] in multiset(t);
    }
    JoinSplit(sorted, ' ');
  }

  /** The CCB key: the searched user name when an entry of a user it matches is still
      pending for one of the next statuses; the first identity that cannot be resolved is
      the error. */
  function CcbKey(ccb: seq<CcbExcerpt>, next: seq<Statuses.Status>, resolve: Id -> Result<IdentityExcerpt>,
                  matches: (IdentityExcerpt, string) -> bool, userName: string): (r: Result<string>)
    ensures r.Ok? ==> r.value == "" || r.value == userName
    ensures r == Ok(userName) && userName != "" ==> exists c :: (c in ccb && resolve(c.user).Ok? && matches(resolve(c.user).value, userName)
      && c.status in next && c.state != Snapshots.ApprovedCcbState)
    decreases |ccb|
  {
    if ccb == [] then Ok("")
    else
      var c := ccb[0];
      var ident := resolve(c.user);
      if ident.Err? then Err(ident.msg)
      else if matches(ident.value, userName) && c.status in next && c.state != Snapshots.ApprovedCcbState then Ok(userName)
      else
        var rest := CcbKey(ccb[1..], next, resolve, matches, userName);
        assert forall x :: x in ccb[1..] ==> x in ccb;
        rest
  }

  /** The key of coloring by assignee. As written, a ticket with an assignee gets no key
      and a ticket without one resolves the empty id; corrected, the reverse. */
  function AssigneeKey(assigneeId: Id, resolve: Id -> Result<IdentityExcerpt>, displayName: IdentityExcerpt -> string, asWritten: bool)
    : (r: Result<string>)
    ensures !asWritten && assigneeId == "" ==> r == Ok("")
    ensures !asWritten && assigneeId != "" && resolve(assigneeId).Ok? ==> r == Ok(displayName(resolve(assigneeId).value))
    ensures asWritten && assigneeId != "" ==> r == Ok("")
  {
    if (if asWritten then assigneeId != "" else assigneeId == "") then Ok("")
    else
      var ident := resolve(assigneeId);
      if ident.Err? then Err("failed to resolve identity " + assigneeId + ": " + ident.msg)
      else Ok(displayName(ident.value))
  }

  /** getTicketColorKey: the key the ticket is coloured by under the query's coloring, ""
      for none. */
  function ColorKey(q: QueryState, t: BugExcerpt, resolve: Id -> Result<IdentityExcerpt>, displayName: IdentityExcerpt -> string,
                    matches: (IdentityExcerpt, string) -> bool, asWritten: bool): Result<string> {
    if q.colorBy == QueryAst.ColorByAuthor then
      var ident := resolve(t.authorId);
      if ident.Err? then Err("failed to resolve identity " + t.authorId + ": " + ident.msg)
      else Ok(displayName(ident.value))
    else if q.colorBy == QueryAst.ColorByAssignee then AssigneeKey(t.assigneeId, resolve, displayName, asWritten)
    else if q.colorBy == QueryAst.ColorByLabel then Ok(LabelKey(t.labels, q.colorByLabelPrefix))
    else if q.colorBy == QueryAst.ColorByCcbPendingByUser then
      match Workflows.WorkflowOfLabels(t.labels)
      case None => Ok("")
      case Some(w) => CcbKey(t.ccb, Workflows.NextStatusesOf(w.transitions, t.status), resolve, matches, q.colorByCcbUserName)
    else Ok("")
  }

  /** As written, coloring by assignee leaves every assigned ticket uncoloured, and colours
      an unassigned ticket by whatever the empty id resolves to, or fails. */
  lemma AssigneeColorInverted(q: QueryState, t: BugExcerpt, resolve: Id -> Result<IdentityExcerpt>,
                              displayName: IdentityExcerpt -> string, matches: (IdentityExcerpt, string) -> bool)
    requires q.colorBy == QueryAst.ColorByAssignee
    ensures t.assigneeId != "" ==> ColorKey(q, t, resolve, displayName, matches, true) == Ok("")
    ensures t.assigneeId == "" && resolve("").Err? ==>
      ColorKey(q, t, resolve, displayName, matches, true) == Err("failed to resolve identity : " + resolve("").msg)
  {
  }

  /** Corrected: an assigned ticket is coloured by its assignee's display name, and an
      unassigned ticket is not coloured. */
  lemma AssigneeColorCorrected(q: QueryState, t: BugExcerpt, resolve: Id -> Result<IdentityExcerpt>,
                               displayName: IdentityExcerpt -> string, matches: (IdentityExcerpt, string) -> bool)
    requires q.colorBy == QueryAst.ColorByAssignee
    ensures t.assigneeId == "" ==> ColorKey(q, t, resolve, displayName, matches, false) == Ok("")
    ensures t.assigneeId != "" && resolve(t.assigneeId).Ok? ==>
      ColorKey(q, t, resolve, displayName, matches, false) == Ok(displayName(resolve(t.assigneeId).value))
  {
  }

  /** getTicketColorKey, with its two loops: the label loop collects the prefixed labels,
      the CCB loop looks for a pending entry of the searched user. */
  method GetTicketColorKey(q: QueryState, t: BugExcerpt, resolve: Id -> Result<IdentityExcerpt>, displayName: IdentityExcerpt -> string,
                           matches: (IdentityExcerpt, string) -> bool, asWritten: bool)
    returns (r: Result<string>)
    ensures r == ColorKey(q, t, resolve, displayName, matches, asWritten)
  {
    if q.colorBy == QueryAst.ColorByAuthor {
      var ident := resolve(t.authorId);
      if ident.Err? {
        return Err("failed to resolve identity " + t.authorId + ": " + ident.msg);
      }
      return Ok(displayName(ident.value));
    } else if q.colorBy == QueryAst.ColorByAssignee {
      if (if asWritten then t.assigneeId != "" else t.assigneeId == "") {
        return Ok("");
      }
      var ident := resolve(t.assigneeId);
      if ident.Err? {
        return Err("failed to resolve identity " + t.assigneeId + ": " + ident.msg);
      }
      return Ok(displayName(ident.value));
    } else if q.colorBy == QueryAst.ColorByLabel {
      var labels := CollectTrimmed(t.labels, q.colorByLabelPrefix);
      return Ok(Join(SortStrings(labels), " "));
    } else if q.colorBy == QueryAst.ColorByCcbPendingByUser {
      var workflow := Workflows.WorkflowOfLabels(t.labels);
      if workflow.None? {
        return Ok("");
      }
      var next := Workflows.NextStatusesOf(workflow.value.transitions, t.status);
      r := FindPendingCcb(t.ccb, next, resolve, matches, q.colorByCcbUserName);
      return;
    }
    return Ok("");
  }

  /** The label loop of getTicketColorKey: the prefixed labels, prefix removed. */
  method CollectTrimmed(labels: seq<string>, prefix: string) returns (r: seq<string>)
    ensures r == Trimmed(labels, prefix)
  {
    r := [];
    var i := 0;
    while i < |labels|
      invariant 0 <= i <= |labels|
      invariant r == Trimmed(labels[..i], prefix)
    {
      assert labels[..i + 1] == labels[..i] + [labels[i]];
      TrimmedAppend(labels[..i], [labels[i]], prefix);
      if HasPrefix(labels[i], prefix) {
        r := r + [TrimPrefix(labels[i], prefix)];
      }
      i := i + 1;
    }
    assert labels[..i] == labels;
  }

  /** The CCB loop of getTicketColorKey: stops at the first identity that cannot be
      resolved or at the first pending entry of the searched user. */
  method FindPendingCcb(ccb: seq<CcbExcerpt>, next: seq<Statuses.Status>, resolve: Id -> Result<IdentityExcerpt>,
                        matches: (IdentityExcerpt, string) -> bool, userName: string) returns (r: Result<string>)
    ensures r == CcbKey(ccb, next, resolve, matches, userName)
  {
    var i := 0;
    while i < |ccb|
      invariant 0 <= i <= |ccb|
      invariant CcbKey(ccb, next, resolve, matches, userName) == CcbKey(ccb[i..], next, resolve, matches, userName)
    {
      assert ccb[i..][0] == ccb[i] && ccb[i..][1..] == ccb[i + 1..];
      var ident := resolve(ccb[i].user);
      if ident.Err? {
        return Err(ident.msg);
      }
      if matches(ident.value, userName) && ccb[i].status in next && ccb[i].state != Snapshots.ApprovedCcbState {
        return Ok(userName);
      }
      i := i + 1;
    }
    assert ccb[i..] == [];
    return Ok("");
  }

  // -------------------------------------------------------------- colours

  /** The board's palette: twenty colours, all different. */
  const Palette: seq<string> := [
    "#e6194b", "#3cb44b", "#ffe119", "#4363d8", "#f58231", "#911eb4", "#42d4f4", "#f032e6", "#bfef45", "#fabed4",
    "#469990", "#dcbeff", "#9A6324", "#fffac8", "#800000", "#aaffc3", "#808000", "#ffd8b1", "#000075", "#a9a9a9"]

  const PaletteSize: nat := 20

  /** No colour appears twice in the palette. */
  lemma PaletteDistinct()
    ensures |Palette| == PaletteSize
    ensures forall i, j :: 0 <= i < j < |Palette| ==> Palette[i] != Palette[j]
  {
    forall i, j | 0 <= i < j < |Palette|
      ensures Palette[i] != Palette[j]
    {
      assert Palette[i][1..3] != Palette[j][1..3] || Palette[i][3..] != Palette[j][3..];
    }
  }

  /** The palette entry of every key seen so far: a new non-empty key gets the entry
      numbered by how many keys came before it, modulo the palette's size. */
  function KeySlots(keys: seq<string>): (m: map<string, nat>)
    ensures forall k :: k in m ==> k != "" && k in keys && m[k] < PaletteSize
    ensures forall k :: k in keys && k != "" ==> k in m
    ensures |m| <= |keys|
    decreases |keys|
  {
    if keys == [] then map[]
    else
      var prev := KeySlots(keys[..|keys| - 1]);
      var k := keys[|keys| - 1];
      assert forall x :: x in keys <==> x in keys[..|keys| - 1] || x == k;
      if k == "" || k in prev then prev else prev[k := |prev| % PaletteSize]
  }

  /** The palette entry of every ticket coloured so far: its key's. */
  function TicketSlots(ids: seq<Id>, keys: seq<string>): (m: map<Id, nat>)
    requires |ids| == |keys|
    ensures forall id :: id in m ==> m[id] < PaletteSize
    decreases |ids|
  {
    if ids == [] then map[]
    else
      var n := |ids| - 1;
      var prev := TicketSlots(ids[..n], keys[..n]);
      if keys[n] == "" then prev else prev[ids[n] := KeySlots(keys)[keys[n]]]
  }

  /** A key keeps the colour it got first, whatever keys follow. */
  lemma {:induction false} KeySlotStable(keys: seq<string>, more: seq<string>, k: string)
    requires k in KeySlots(keys)
    ensures k in KeySlots(keys + more) && KeySlots(keys + more)[k] == KeySlots(keys)[k]
    decreases |more|
  {
    if more == [] {
      assert keys + more == keys;
    } else {
      var init := more[..|more| - 1];
      KeySlotStable(keys, init, k);
      assert (keys + more)[..|keys + more| - 1] == keys + init;
    }
  }

  /** While at most twenty keys are seen, every entry given is below the number of keys. */
  lemma {:induction false} KeySlotsBelow(keys: seq<string>)
    requires |KeySlots(keys)| <= PaletteSize
    ensures forall k :: k in KeySlots(keys) ==> KeySlots(keys)[k] < |KeySlots(keys)|
    decreases |keys|
  {
    if keys != [] {
      KeySlotsBelow(keys[..|keys| - 1]);
    }
  }

  /** While at most twenty keys are seen, different keys get different palette entries. */
  lemma {:induction false} KeySlotsDistinct(keys: seq<string>)
    requires |KeySlots(keys)| <= PaletteSize
    ensures Injective(KeySlots(keys))
    decreases |keys|
  {
    if keys != [] {
      var init := keys[..|keys| - 1];
      var prev := KeySlots(init);
      var k := keys[|keys| - 1];
      if k == "" || k in prev {
        assert KeySlots(keys) == prev;
        KeySlotsDistinct(init);
      } else {
        assert KeySlots(keys) == prev[k := |prev| % PaletteSize];
        assert |prev| < PaletteSize;
        KeySlotsDistinct(init);
        KeySlotsBelow(init);
        InjectiveExtend(prev, k, |prev|);
      }
    }
  }

  /** No two keys of the map share a value. */
  ghost predicate Injective(m: map<string, nat>) {
    forall a, b :: a in m && b in m && a != b ==> m[a] != m[b]
  }

  /** A new key given a value above all present ones keeps the map injective. */
  lemma InjectiveExtend(m: map<string, nat>, k: string, v: nat)
    requires Injective(m) && k !in m
    requires forall x :: x in m ==> m[x] < v
    ensures Injective(m[k := v])
  {
  }

  /** While at most twenty keys are seen, different keys get different colours. */
  lemma KeyColorsDistinct(keys: seq<string>, a: string, b: string)
    requires |KeySlots(keys)| <= PaletteSize
    requires a in KeySlots(keys) && b in KeySlots(keys) && a != b
    ensures Palette[KeySlots(keys)[a]] != Palette[KeySlots(keys)[b]]
  {
    KeySlotsDistinct(keys);
    PaletteDistinct();
  }

  lemma MapSizes<K, A, B>(a: map<K, A>, b: map<K, B>)
    requires a.Keys == b.Keys
    ensures |a| == |b|
  {
    assert |a| == |a.Keys| && |b| == |b.Keys|;
  }

  lemma KeySlotsStep(keys: seq<string>, i: nat)
    requires i < |keys|
    ensures var prev := KeySlots(keys[..i]);
      KeySlots(keys[..i + 1]) == if keys[i] == "" || keys[i] in prev then prev else prev[keys[i] := |prev| % PaletteSize]
  {
    assert keys[..i + 1][..i] == keys[..i];
  }

  lemma TicketSlotsStep(ids: seq<Id>, keys: seq<string>, i: nat)
    requires |ids| == |keys| && i < |keys|
    ensures var prev := TicketSlots(ids[..i], keys[..i]);
      TicketSlots(ids[..i + 1], keys[..i + 1]) == if keys[i] == "" then prev else prev[ids[i] := KeySlots(keys[..i + 1])[keys[i]]]
  {
    assert keys[..i + 1][..i] == keys[..i] && ids[..i + 1][..i] == ids[..i];
  }

  /** The colour loop of handleIndex over the keys of the listed tickets, in listing
      order: every new key takes the next palette entry, and a ticket with a key is
      coloured by its key's colour. */
  method AssignColors(ids: seq<Id>, keys: seq<string>) returns (colorKey: map<string, string>, ticketColors: map<Id, string>)
    requires |ids| == |keys|
    ensures Painted(colorKey, KeySlots(keys))
    ensures Painted(ticketColors, TicketSlots(ids, keys))
  {
    colorKey := map[];
    ticketColors := map[];
    PaletteDistinct();
    var i := 0;
    while i < |ids|
      invariant 0 <= i <= |ids|
      invariant Painted(colorKey, KeySlots(keys[..i]))
      invariant Painted(ticketColors, TicketSlots(ids[..i], keys[..i]))
    {
      var key := keys[i];
      ghost var slots := KeySlots(keys[..i]);
      ghost var tslots := TicketSlots(ids[..i], keys[..i]);
      KeySlotsStep(keys, i);
      TicketSlotsStep(ids, keys, i);
      if key != "" {
        if key !in colorKey {
          MapSizes(colorKey, slots);
          PaintedUpdate(colorKey, slots, key, |slots| % PaletteSize);
          colorKey := colorKey[key := Palette[|colorKey| % PaletteSize]];
        }
        PaintedUpdate(ticketColors, tslots, ids[i], KeySlots(keys[..i + 1])[key]);
        ticketColors := ticketColors[ids[i] := colorKey[key]];
      }
      i := i + 1;
    }
    assert keys[..i] == keys && ids[..i] == ids;
  }

  /** The colours of a map are the palette entries of its slots. */
  ghost predicate Painted<K>(colors: map<K, string>, slots: map<K, nat>) {
    colors.Keys == slots.Keys && forall k :: k in slots ==> slots[k] < PaletteSize && colors[k] == Palette[slots[k]]
  }

  lemma PaintedUpdate<K>(colors: map<K, string>, slots: map<K, nat>, k: K, slot: nat)
    requires Painted(colors, slots) && slot < PaletteSize
    ensures Painted(colors[k := Palette[slot]], slots[k := slot])
  {
  }

  /** A coloured ticket has the colour its key has once all tickets are listed. */
  lemma TicketColorIsKeyColor(ids: seq<Id>, keys: seq<string>, id: Id)
    requires |ids| == |keys| && id in TicketSlots(ids, keys)
    ensures exists i :: 0 <= i < |ids| && ids[i] == id && keys[i] != "" && TicketSlots(ids, keys)[id] == KeySlots(keys)[keys[i]]
  {
    var i := TicketKeyIndex(ids, keys, id);
  }

  /** The last listing of a coloured ticket, a position whose key gives the ticket its colour. */
  lemma {:induction false} TicketKeyIndex(ids: seq<Id>, keys: seq<string>, id: Id) returns (i: nat)
    requires |ids| == |keys| && id in TicketSlots(ids, keys)
    ensures i < |ids| && ids[i] == id && keys[i] != "" && TicketSlots(ids, keys)[id] == KeySlots(keys)[keys[i]]
    decreases |ids|
  {
    var n := |ids| - 1;
    if keys[n] != "" && ids[n] == id {
      i := n;
    } else {
      assert TicketSlots(ids, keys)[id] == TicketSlots(ids[..n], keys[..n])[id];
      i := TicketKeyIndex(ids[..n], keys[..n], id);
      KeySlotStable(keys[..n], [keys[n]], keys[i]);
      assert keys[..n] + [keys[n]] == keys;
    }
  }

  // -------------------------------------------------------------- cross references

  /** A cross-reference rule: its compiled pattern (the submatches of the first match, or
      none) and its link template. */
  datatype XrefRule = XrefRule(pattern: string -> Option<seq<string>>, link: seq<string> -> Result<string>)

  /** The first rule whose pattern matches. */
  function FirstMatch(rules: seq<XrefRule>, s: string): (r: Option<nat>)
    ensures r.Some? ==> (r.value < |rules| && rules[r.value].pattern(s).Some?
      && forall j :: 0 <= j < r.value ==> rules[j].pattern(s).None?)
    ensures r.None? ==> forall j :: 0 <= j < |rules| ==> rules[j].pattern(s).None?
    decreases |rules|
  {
    if rules == [] then None
    else if rules[0].pattern(s).Some? then Some(0)
    else match FirstMatch(rules[1..], s)
      case None => None
      case Some(i) => assert forall j :: 1 <= j < |rules| ==> rules[j] == rules[1..][j - 1]; Some(i + 1)
  }

  /** applyXrefs: the first matching rule's link handed to `handleMatch`; the text itself
      when no rule matches. A link template that fails to execute is the panic of the
      source. */
  method ApplyXrefs(s: string, rules: seq<XrefRule>, handleMatch: (seq<string>, string) -> string) returns (r: Result<string>)
    ensures FirstMatch(rules, s).None? ==> r == Ok(s)
    ensures FirstMatch(rules, s).Some? ==>
      var rule := rules[FirstMatch(rules, s).value];
      var m := rule.pattern(s).value;
      r == (if rule.link(m).Err? then Err(rule.link(m).msg) else Ok(handleMatch(m, rule.link(m).value)))
  {
    var i := 0;
    while i < |rules|
      invariant 0 <= i <= |rules|
      invariant forall j :: 0 <= j < i ==> rules[j].pattern(s).None?
    {
      var m := rules[i].pattern(s);
      if m.Some? {
        var link := rules[i].link(m.value);
        if link.Err? {
          return Err(link.msg);
        }
        return Ok(handleMatch(m.value, link.value));
      }
      i := i + 1;
    }
    return Ok(s);
  }

  // -------------------------------------------------------------- template helpers

  /** ccbStateColor. */
  function CcbStateColor(s: Snapshots.CcbState): (c: string)
    ensures c == "bg-success" <==> s == Snapshots.ApprovedCcbState
    ensures c == "bg-danger" <==> s == Snapshots.BlockedCcbState
    ensures c in {"bg-success", "bg-danger", "bg-secondary"}
  {
    if s == Snapshots.ApprovedCcbState then "bg-success"
    else if s == Snapshots.BlockedCcbState then "bg-danger"
    else "bg-secondary"
  }

  /** checklist: the label without its "checklist:" prefix. */
  function ChecklistName(l: string): (r: string)
    ensures BugLabel.IsChecklist(l) ==> "checklist:" + r == l
    ensures !BugLabel.IsChecklist(l) ==> r == l
  {
    TrimPrefix(l, "checklist:")
  }

  /** checklistStateColor. */
  function ChecklistStateColor(s: Checklists.ChecklistState): (c: string)
    ensures c == "bg-success" <==> s == Checklists.Passed
    ensures c == "bg-danger" <==> s == Checklists.Failed
    ensures c in {"bg-success", "bg-danger", "bg-secondary"}
  {
    if s == Checklists.Passed then "bg-success"
    else if s == Checklists.Failed then "bg-danger"
    else "bg-secondary"
  }

  /** checklistFieldStateColor: unlike checklistStateColor, an out-of-range state is shown as
      failed and TBD gets its own warning class. */
  function ChecklistFieldStateColor(s: Checklists.ChecklistState): (c: string)
    ensures c == "bg-success" <==> s == Checklists.Passed
    ensures c == "bg-secondary" <==> s == Checklists.NotApplicable
    ensures c == "bg-warning" <==> s == Checklists.TBD
    ensures c == "bg-danger" <==> s == Checklists.Failed || !Checklists.IsValid(s)
  {
    if s == Checklists.Passed then "bg-success"
    else if s == Checklists.Failed then "bg-danger"
    else if s == Checklists.NotApplicable then "bg-secondary"
    else if s == Checklists.TBD then "bg-warning"
    else "bg-danger"
  }

  /** split: every line break becomes "<br>". */
  function SplitLines(s: string): (r: string)
    ensures '\n' !in r
    ensures '\n' !in s ==> r == s
  {
    ReplaceChar(s, '\n', "<br>")
  }

  /** The lines of the text, joined by "<br>". */
  lemma SplitLinesJoins(s: string)
    ensures SplitLines(s) == Join(Split(s, '\n'), "<br>")
  {
    ReplaceCharIsSplitJoin(s, '\n', "<br>");
  }

  /** reviewStatusColor, over Gitea's review states. */
  function ReviewStatusColor(s: string): (c: string)
    ensures c == "bg-success" <==> s == GiteaReviews.StateApproved
    ensures c == "bg-danger" <==> s == GiteaReviews.StateRequestChanges
    ensures c in {"bg-success", "bg-danger", "bg-secondary"}
  {
    if s == GiteaReviews.StateApproved then "bg-success"
    else if s == GiteaReviews.StateRequestChanges then "bg-danger"
    else "bg-secondary"
  }

  /** ticketStatusColor: the working statuses are "bg-info", the finished ones
      "bg-success", a rejected ticket "bg-danger", anything else "bg-secondary". */
  function TicketStatusColor(s: Statuses.Status): (c: string)
    ensures c == "bg-info" <==> Statuses.Vetted <= s <= Statuses.Reviewed
    ensures c == "bg-success" <==> Statuses.Accepted <= s <= Statuses.Done
    ensures c == "bg-danger" <==> s == Statuses.Rejected
    ensures c == "bg-secondary" <==> !Statuses.IsValid(s) || s == Statuses.Proposed
  {
    if s == Statuses.Vetted || s == Statuses.InProgress || s == Statuses.InReview || s == Statuses.Reviewed then "bg-info"
    else if s == Statuses.Accepted || s == Statuses.Merged || s == Statuses.Done then "bg-success"
    else if s == Statuses.Rejected then "bg-danger"
    else "bg-secondary"
  }

  /** workflow: the name of the ticket's first workflow label, without its prefix; "" when
      it has none. */
  method WorkflowName(labels: seq<string>) returns (r: string)
    ensures (forall l :: l in labels ==> !BugLabel.IsWorkflow(l)) ==> r == ""
    ensures (exists l :: l in labels && BugLabel.IsWorkflow(l)) ==> exists i :: (0 <= i < |labels| && BugLabel.IsWorkflow(labels[i])
      && (forall j :: 0 <= j < i ==> !BugLabel.IsWorkflow(labels[j])) && "workflow:" + r == labels[i])
  {
    var i := 0;
    while i < |labels|
      invariant 0 <= i <= |labels|
      invariant forall j :: 0 <= j < i ==> !BugLabel.IsWorkflow(labels[j])
    {
      if BugLabel.IsWorkflow(labels[i]) {
        return TrimPrefix(labels[i], "workflow:");
      }
      i := i + 1;
    }
    return "";
  }
}
