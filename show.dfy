/** The summaries `git ticket show` prints (commands/show.go): the ticket's workflow and its
    other labels, and one line per CCB member listing that member's approvals. */
module ShowCommand {
  import opened StrUtil
  import opened Sorting
  import opened Wrappers
  import opened Identities
  import BugLabel
  import Snapshots
  import Statuses = Status

  type CcbInfo = Snapshots.CcbInfo

  /** What is shown for the workflow of a ticket without a workflow label. */
  const NoneAssigned := "<NONE ASSIGNED>"

  /** bug.WorkflowPrefix. */
  const WorkflowPrefix := "workflow:"

  // ------------------------------------------------------------ workflow and labels

  /** The last workflow label of the list, if there is one. */
  function LastWorkflow(labels: seq<string>): (r: Option<string>)
    ensures r.None? <==> forall l :: l in labels ==> !BugLabel.IsWorkflow(l)
    ensures r.Some? ==> BugLabel.IsWorkflow(r.value) && r.value in labels
  {
    if labels == [] then None
    else if BugLabel.IsWorkflow(labels[|labels| - 1]) then Some(labels[|labels| - 1])
    else
      assert labels == labels[..|labels| - 1] + [labels[|labels| - 1]];
      LastWorkflow(labels[..|labels| - 1])
  }

  /** The workflow shown: the last workflow label without its prefix, or NoneAssigned. */
  function WorkflowShown(labels: seq<string>): (w: string)
    ensures LastWorkflow(labels).None? ==> w == NoneAssigned
    ensures LastWorkflow(labels).Some? ==> WorkflowPrefix + w == LastWorkflow(labels).value
  {
    match LastWorkflow(labels)
    case None => NoneAssigned
    case Some(l) => TrimPrefix(l, WorkflowPrefix)
  }

  /** The labels shown: those that are neither workflow nor checklist labels, in order. */
  function PlainLabels(labels: seq<string>): (r: seq<string>)
    ensures |r| <= |labels|
    ensures forall x :: x in r <==> x in labels && !BugLabel.IsWorkflow(x) && !BugLabel.IsChecklist(x)
  {
    if labels == [] then []
    else
      var l := labels[|labels| - 1];
      assert labels == labels[..|labels| - 1] + [l];
      if BugLabel.IsWorkflow(l) || BugLabel.IsChecklist(l) then PlainLabels(labels[..|labels| - 1])
      else PlainLabels(labels[..|labels| - 1]) + [l]
  }

  /** workflowAndLabels: one pass over the labels, keeping the latest workflow label and
      collecting every label that is neither a workflow nor a checklist label. */
  method WorkflowAndLabels(labels: seq<string>) returns (workflow: string, plain: seq<string>)
    ensures workflow == WorkflowShown(labels)
    ensures plain == PlainLabels(labels)
  {
    plain := [];
    workflow := NoneAssigned;
    for i := 0 to |labels|
      invariant workflow == WorkflowShown(labels[..i])
      invariant plain == PlainLabels(labels[..i])
    {
      var l := labels[i];
      assert labels[..i + 1][..i] == labels[..i];
      if BugLabel.IsWorkflow(l) {
        workflow := TrimPrefix(l, WorkflowPrefix);
      } else if BugLabel.IsChecklist(l) {
        continue;
      } else {
        plain := plain + [l];
      }
    }
    assert labels[..|labels|] == labels;
  }

  /** The last workflow label wins: one appended after any list is the one shown, and a
      label of another kind appended leaves the shown workflow as it was. */
  lemma LastWorkflowWins(labels: seq<string>, l: string)
    ensures BugLabel.IsWorkflow(l) ==> WorkflowShown(labels + [l]) == TrimPrefix(l, WorkflowPrefix)
    ensures !BugLabel.IsWorkflow(l) ==> WorkflowShown(labels + [l]) == WorkflowShown(labels)
  {
    assert (labels + [l])[..|labels|] == labels;
  }

  /** Labels keep their order: the plain labels of two lists put one after the other are
      those of the first list followed by those of the second. */
  lemma {:induction false} PlainLabelsAppend(a: seq<string>, b: seq<string>)
    ensures PlainLabels(a + b) == PlainLabels(a) + PlainLabels(b)
    decreases |b|
  {
    if b == [] {
      assert a + b == a;
    } else {
      var c := b[..|b| - 1];
      assert a + b == (a + c) + [b[|b| - 1]];
      assert (a + b)[..|a + b| - 1] == a + c;
      PlainLabelsAppend(a, c);
    }
  }

  /** No workflow label (and no checklist label) is shown among the labels, and a list of
      labels with neither kind is shown unchanged. */
  lemma {:induction false} PlainLabelsUnchanged(labels: seq<string>)
    requires forall l :: l in labels ==> !BugLabel.IsWorkflow(l) && !BugLabel.IsChecklist(l)
    ensures PlainLabels(labels) == labels
  {
    if labels != [] {
      var c := labels[..|labels| - 1];
      assert labels == c + [labels[|labels| - 1]];
      PlainLabelsUnchanged(c);
    }
  }

  // ------------------------------------------------------------------- CCB summary

  /** The display names of the CCB members with an entry. */
  function CcbUsers(ccb: seq<CcbInfo>, displayName: Identity -> string): (r: set<string>)
    ensures forall u :: u in r <==> exists c :: c in ccb && displayName(c.user) == u
  {
    set c | c in ccb :: displayName(c.user)
  }

  /** The entries of the member shown as `u`, in the order of the ticket's CCB list. */
  function EntriesOf(ccb: seq<CcbInfo>, displayName: Identity -> string, u: string): (r: seq<CcbInfo>)
    ensures forall c :: c in r <==> c in ccb && displayName(c.user) == u
  {
    if ccb == [] then []
    else
      var c := ccb[|ccb| - 1];
      assert ccb == ccb[..|ccb| - 1] + [c];
      if displayName(c.user) == u then EntriesOf(ccb[..|ccb| - 1], displayName, u) + [c]
      else EntriesOf(ccb[..|ccb| - 1], displayName, u)
  }

  /** One approval as shown: the status, a colon and the (coloured) state. */
  function EntryText(c: CcbInfo, stateText: Snapshots.CcbState -> string): string {
    Statuses.StatusString(c.status) + ":" + stateText(c.state)
  }

  function EntryTexts(cs: seq<CcbInfo>, stateText: Snapshots.CcbState -> string): (r: seq<string>)
    ensures |r| == |cs| && forall i :: 0 <= i < |cs| ==> r[i] == EntryText(cs[i], stateText)
  {
    if cs == [] then [] else [EntryText(cs[0], stateText)] + EntryTexts(cs[1..], stateText)
  }

  /** The line of one member: the name, then the member's approvals in parentheses. */
  function UserLine(u: string, entries: seq<CcbInfo>, byStatus: seq<CcbInfo> -> seq<CcbInfo>,
                    stateText: Snapshots.CcbState -> string): string
  {
    u + " (" + Join(EntryTexts(byStatus(entries), stateText), ", ") + ")"
  }

  /** The first loop of ccbSummary: the entries grouped by the member's display name. */
  method GroupByUser(ccb: seq<CcbInfo>, displayName: Identity -> string) returns (groups: map<string, seq<CcbInfo>>)
    ensures groups.Keys == CcbUsers(ccb, displayName)
    ensures forall u :: u in groups ==> groups[u] == EntriesOf(ccb, displayName, u)
  {
    groups := map[];
    for i := 0 to |ccb|
      invariant groups.Keys == CcbUsers(ccb[..i], displayName)
      invariant forall u :: u in groups ==> groups[u] == EntriesOf(ccb[..i], displayName, u)
    {
      var u := displayName(ccb[i].user);
      assert ccb[..i + 1][..i] == ccb[..i];
      assert ccb[..i + 1] == ccb[..i] + [ccb[i]];
      var before := if u in groups then groups[u] else [];
      if u !in groups {
        var e := EntriesOf(ccb[..i], displayName, u);
        if e != [] {
          assert e[0] in e;
        }
      }
      groups := groups[u := before + [ccb[i]]];
    }
    assert ccb[..|ccb|] == ccb;
  }

  /** ccbSummary: one line per member shown (the member's approvals ordered by
      `byStatus`, which stands for bug.CcbInfoByStatus, each state rendered by
      `stateText`, which stands for CcbState.ColorString), the lines sorted. */
  method CcbSummary(ccb: seq<CcbInfo>, displayName: Identity -> string,
                    byStatus: seq<CcbInfo> -> seq<CcbInfo>, stateText: Snapshots.CcbState -> string)
    returns (lines: seq<string>)
    ensures SortedStrings(lines)
    ensures |lines| == |CcbUsers(ccb, displayName)|
    ensures forall u :: u in CcbUsers(ccb, displayName) ==>
      UserLine(u, EntriesOf(ccb, displayName, u), byStatus, stateText) in lines
    ensures forall s :: s in lines ==>
      exists u :: u in CcbUsers(ccb, displayName) && s == UserLine(u, EntriesOf(ccb, displayName, u), byStatus, stateText)
  {
    var groups := GroupByUser(ccb, displayName);
    var unsorted := UserLines(groups, byStatus, stateText);
    lines := SortStrings(unsorted);
    SortStringsSorted(unsorted);
    assert forall s :: s in lines <==> s in unsorted by {
      forall s ensures s in lines <==> s in unsorted {
        assert s in lines <==> s in multiset(lines);
        assert s in unsorted <==> s in multiset(unsorted);
      }
    }
  }

  /** The second loop of ccbSummary: one line per group, in the map's (arbitrary) order. */
  method UserLines(groups: map<string, seq<CcbInfo>>, byStatus: seq<CcbInfo> -> seq<CcbInfo>,
                   stateText: Snapshots.CcbState -> string)
    returns (lines: seq<string>)
    ensures |lines| == |groups.Keys|
    ensures forall u :: u in groups ==> UserLine(u, groups[u], byStatus, stateText) in lines
    ensures forall s :: s in lines ==> exists u :: u in groups && s == UserLine(u, groups[u], byStatus, stateText)
  {
    var users := MapOrder(groups.Keys);
    var line := (u: string) => if u in groups then UserLine(u, groups[u], byStatus, stateText) else "";
    lines := MapLines(users, line);
    LinesCoverGroups(groups, users, lines, line, byStatus, stateText);
    LinesFromGroups(groups, users, lines, line, byStatus, stateText);
  }

  lemma LinesCoverGroups(groups: map<string, seq<CcbInfo>>, users: seq<string>, lines: seq<string>, line: string -> string,
                         byStatus: seq<CcbInfo> -> seq<CcbInfo>, stateText: Snapshots.CcbState -> string)
    requires forall u :: u in users <==> u in groups
    requires |lines| == |users| && forall j :: 0 <= j < |users| ==> lines[j] == line(users[j])
    requires forall u :: u in groups ==> line(u) == UserLine(u, groups[u], byStatus, stateText)
    ensures forall u :: u in groups ==> UserLine(u, groups[u], byStatus, stateText) in lines
  {
    forall u | u in groups
      ensures UserLine(u, groups[u], byStatus, stateText) in lines
    {
      var k :| 0 <= k < |users| && users[k] == u;
      assert lines[k] == line(u);
    }
  }

  lemma LinesFromGroups(groups: map<string, seq<CcbInfo>>, users: seq<string>, lines: seq<string>, line: string -> string,
                        byStatus: seq<CcbInfo> -> seq<CcbInfo>, stateText: Snapshots.CcbState -> string)
    requires forall u :: u in users <==> u in groups
    requires |lines| == |users| && forall j :: 0 <= j < |users| ==> lines[j] == line(users[j])
    requires forall u :: u in groups ==> line(u) == UserLine(u, groups[u], byStatus, stateText)
    ensures forall s :: s in lines ==> exists u :: u in groups && s == UserLine(u, groups[u], byStatus, stateText)
  {
    forall s | s in lines
      ensures exists u :: u in groups && s == UserLine(u, groups[u], byStatus, stateText)
    {
      var k :| 0 <= k < |lines| && lines[k] == s;
      assert users[k] in users;
      assert users[k] in groups && s == line(users[k]);
    }
  }

  /** The loop that formats one line per visited member. */
  method MapLines(users: seq<string>, line: string -> string) returns (lines: seq<string>)
    ensures |lines| == |users|
    ensures forall j :: 0 <= j < |users| ==> lines[j] == line(users[j])
  {
    lines := [];
    for k := 0 to |users|
      invariant |lines| == k
      invariant forall j :: 0 <= j < k ==> lines[j] == line(users[j])
    {
      lines := lines + [line(users[k])];
    }
  }

  /** The order in which `range` visits the keys of a map: each key once, in no specified
      order. */
  method MapOrder(keys: set<string>) returns (order: seq<string>)
    ensures |order| == |keys|
    ensures forall u :: u in order <==> u in keys
  {
    order := [];
    var rest := keys;
    while rest != {}
      invariant rest <= keys
      invariant |order| + |rest| == |keys|
      invariant forall u :: u in order <==> u in keys - rest
      decreases |rest|
    {
      var u :| u in rest;
      order := order + [u];
      rest := rest - {u};
    }
  }

  /** A ticket with no CCB entries shows no CCB lines, and one member's several entries
      make a single line. */
  lemma OneLinePerMember(ccb: seq<CcbInfo>, displayName: Identity -> string)
    requires ccb != []
    requires forall i :: 0 <= i < |ccb| ==> displayName(ccb[i].user) == displayName(ccb[0].user)
    ensures CcbUsers(ccb, displayName) == {displayName(ccb[0].user)}
    ensures EntriesOf(ccb, displayName, displayName(ccb[0].user)) == ccb
  {
    EntriesOfAll(ccb, displayName, displayName(ccb[0].user));
  }

  lemma {:induction false} EntriesOfAll(ccb: seq<CcbInfo>, displayName: Identity -> string, u: string)
    requires forall i :: 0 <= i < |ccb| ==> displayName(ccb[i].user) == u
    ensures EntriesOf(ccb, displayName, u) == ccb
  {
    if ccb != [] {
      var c := ccb[..|ccb| - 1];
      assert ccb == c + [ccb[|ccb| - 1]];
      EntriesOfAll(c, displayName, u);
    }
  }
}
