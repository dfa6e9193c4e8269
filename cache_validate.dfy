/** The rules validateNewBugOptions (cache/repo_cache_bug.go) applies to the options of a
    new ticket, stated label by label. Whether a label names a repository or an impact is
    decided by Label.IsRepo and Label.IsImpact, which are not part of this model; they are
    parameters here. */
module NewBugChecks {
  import opened Wrappers
  import opened Entity
  import Statuses = Status
  import Workflows
  import BugLabel
  import Checklists
  import Ccb
  import ConfigLabel

  /** The part of config.ConfigCache the ticket cache reads: the configured labels (the
      label configuration's flat map), the checklist templates and the CCB members. */
  datatype ConfigCache = ConfigCache(
    labels: map<string, ConfigLabel.SingleLabelConfig>,
    checklists: Checklists.ChecklistConfig,
    ccb: Ccb.CcbConfig)

  /** NewBugOpts, without the assignee (validation does not read it). */
  datatype NewBugOpts = NewBugOpts(
    title: string, message: string, workflow: string, repo: string,
    impact: seq<string>, checklists: seq<string>,
    ccbMembers: map<Statuses.Status, seq<Id>>)

  predicate ImpactOk(l: string, cfg: ConfigCache, isImpact: string -> bool) {
    isImpact(l) && l in cfg.labels
  }

  predicate ChecklistOk(l: string, cfg: ConfigCache) {
    BugLabel.IsChecklist(l) && l in cfg.checklists
  }

  /** The error for a checklist label: not a checklist label at all, or one with no template
      (GetChecklist's error). */
  function ChecklistError(l: string, cfg: ConfigCache): string {
    if !BugLabel.IsChecklist(l) then "Invalid checklist label: " + l
    else
      var g := Checklists.GetChecklist(cfg.checklists, l);
      if g.Err? then g.msg else ""
  }

  /** Where a scan that stops at the first label failing `ok` stops: every label before it
      passes, and it is the end of the list or a failing label. */
  function FirstFailing(xs: seq<string>, ok: string -> bool): (k: nat)
    ensures k <= |xs|
    ensures forall j :: 0 <= j < k ==> ok(xs[j])
    ensures k < |xs| ==> !ok(xs[k])
    decreases |xs|
  {
    if xs == [] || !ok(xs[0]) then 0
    else
      var k := 1 + FirstFailing(xs[1..], ok);
      assert forall j :: 0 < j < k ==> xs[j] == xs[1..][j - 1];
      k
  }

  /** The impact labels are checked in order; the first that is not a configured impact
      label is reported. */
  function ImpactCheck(impact: seq<string>, cfg: ConfigCache, isImpact: string -> bool): (r: Result<seq<string>>)
    ensures r.Ok? <==> forall l :: l in impact ==> ImpactOk(l, cfg, isImpact)
    ensures r.Ok? ==> r.value == impact
    ensures r.Err? ==> exists k :: (0 <= k < |impact| && !ImpactOk(impact[k], cfg, isImpact)
      && (forall j :: 0 <= j < k ==> ImpactOk(impact[j], cfg, isImpact))
      && r.msg == "Invalid impact label: " + impact[k])
  {
    var k := FirstFailing(impact, l => ImpactOk(l, cfg, isImpact));
    if k == |impact| then Ok(impact)
    else
      assert !ImpactOk(impact[k], cfg, isImpact) && forall j :: 0 <= j < k ==> ImpactOk(impact[j], cfg, isImpact);
      Err("Invalid impact label: " + impact[k])
  }

  /** The checklist labels are checked in order; the first that is not a checklist label, or
      has no template, is reported. */
  function ChecklistCheck(cls: seq<string>, cfg: ConfigCache): (r: Result<seq<string>>)
    ensures r.Ok? <==> forall l :: l in cls ==> ChecklistOk(l, cfg)
    ensures r.Ok? ==> r.value == cls
    ensures r.Err? ==> exists k :: (0 <= k < |cls| && !ChecklistOk(cls[k], cfg)
      && (forall j :: 0 <= j < k ==> ChecklistOk(cls[j], cfg))
      && r.msg == ChecklistError(cls[k], cfg))
  {
    var k := FirstFailing(cls, l => ChecklistOk(l, cfg));
    if k == |cls| then Ok(cls)
    else
      assert !ChecklistOk(cls[k], cfg) && forall j :: 0 <= j < k ==> ChecklistOk(cls[j], cfg);
      Err(ChecklistError(cls[k], cfg))
  }

  /** Every label of the options is acceptable: the workflow is a known workflow, the
      repository label is set, is a repository label and is configured, every impact label
      is a configured impact label, and every checklist label has a template. */
  predicate LabelsValid(opts: NewBugOpts, cfg: ConfigCache, isRepo: string -> bool, isImpact: string -> bool) {
    && Workflows.WorkflowOfLabels([opts.workflow]).Some?
    && opts.repo != ""
    && isRepo(opts.repo) && opts.repo in cfg.labels
    && (forall l :: l in opts.impact ==> ImpactOk(l, cfg, isImpact))
    && (forall l :: l in opts.checklists ==> ChecklistOk(l, cfg))
  }

  /** The label half of validateNewBugOptions: the labels of the new ticket, or the first
      rule broken, in the order the rules are checked. */
  function LabelCheck(opts: NewBugOpts, cfg: ConfigCache, isRepo: string -> bool, isImpact: string -> bool): (r: Result<seq<string>>)
    ensures r.Ok? <==> LabelsValid(opts, cfg, isRepo, isImpact)
    ensures r.Ok? ==> r.value == [opts.workflow, opts.repo] + opts.impact + opts.checklists
  {
    if Workflows.WorkflowOfLabels([opts.workflow]).None? then Err("Invalid workflow: " + opts.workflow)
    else if opts.repo == "" then Err("Repo label cannot be left empty")
    else if !isRepo(opts.repo) || opts.repo !in cfg.labels then Err("Invalid repo label: " + opts.repo)
    else
      var i := ImpactCheck(opts.impact, cfg, isImpact);
      if i.Err? then Err(i.msg)
      else
        var c := ChecklistCheck(opts.checklists, cfg);
        if c.Err? then Err(c.msg)
        else Ok([opts.workflow, opts.repo] + opts.impact + opts.checklists)
  }

  /** The workflow rule accepts exactly the names of the stored workflows. */
  lemma WorkflowRule(opts: NewBugOpts, cfg: ConfigCache, isRepo: string -> bool, isImpact: string -> bool)
    ensures LabelsValid(opts, cfg, isRepo, isImpact) ==> exists w :: w in Workflows.Store && w.name == opts.workflow
  {
    if LabelsValid(opts, cfg, isRepo, isImpact) {
      var w := Workflows.WorkflowOfLabels([opts.workflow]).value;
      assert w.name in [opts.workflow];
    }
  }

  /** A checklist label that passes is never a workflow label. */
  lemma ChecklistsAreNotWorkflows(opts: NewBugOpts, cfg: ConfigCache, isRepo: string -> bool, isImpact: string -> bool, l: string)
    requires LabelCheck(opts, cfg, isRepo, isImpact).Ok? && l in opts.checklists
    ensures !BugLabel.IsWorkflow(l)
  {
    BugLabel.ChecklistNotWorkflow(l);
  }
}
