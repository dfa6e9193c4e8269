/** The older query form (query/parser.go, Parse and its helpers): whitespace-separated
    `qualifier:value` tokens filling in a flat Query record. Lists accumulate, a date bound
    keeps the last value given, ordering and coloring may be given once each, and the first
    token that does not fit ends the parse with an error. */
module QueryLegacy {
  import opened Wrappers
  import opened StrUtil
  import opened QueryLexer
  import opened QueryAst
  import opened QueryModel
  import opened QueryParser
  import Statuses = Status

  /** The list fields of a Query. */
  datatype ListField = AuthorList | AssigneeList | CcbList | CcbPendingList | ActorList | ParticipantList | LabelList | TitleList

  /** The date bounds of a Query. */
  datatype TimeField = CreateBefore | CreateAfter | EditBefore | EditAfter

  /** What a token's qualifier asks for. */
  datatype Qualifier = StatusQual | ListQual(list: ListField) | NoQual | TimeQual(time: TimeField)
                     | SortQual | ColorQual | UnknownQual

  /** Parse's switch on the qualifier; "state" is another name for "status". */
  function QualifierOf(q: string): Qualifier {
    if q == "status" || q == "state" then StatusQual
    else if q == "author" then ListQual(AuthorList)
    else if q == "assignee" then ListQual(AssigneeList)
    else if q == "ccb" then ListQual(CcbList)
    else if q == "ccb-pending" then ListQual(CcbPendingList)
    else if q == "actor" then ListQual(ActorList)
    else if q == "participant" then ListQual(ParticipantList)
    else if q == "label" then ListQual(LabelList)
    else if q == "title" then ListQual(TitleList)
    else if q == "no" then NoQual
    else if q == "create-before" then TimeQual(CreateBefore)
    else if q == "create-after" then TimeQual(CreateAfter)
    else if q == "edit-before" then TimeQual(EditBefore)
    else if q == "edit-after" then TimeQual(EditAfter)
    else if q == "sort" then SortQual
    else if q == "color-by" then ColorQual
    else UnknownQual
  }

  /** The name of each known qualifier. */
  function QualifierName(k: Qualifier): string {
    match k
    case StatusQual => "status"
    case ListQual(f) =>
      (match f
       case AuthorList => "author" case AssigneeList => "assignee" case CcbList => "ccb"
       case CcbPendingList => "ccb-pending" case ActorList => "actor" case ParticipantList => "participant"
       case LabelList => "label" case TitleList => "title")
    case NoQual => "no"
    case TimeQual(f) =>
      (match f
       case CreateBefore => "create-before" case CreateAfter => "create-after"
       case EditBefore => "edit-before" case EditAfter => "edit-after")
    case SortQual => "sort"
    case ColorQual => "color-by"
    case UnknownQual => ""
  }

  /** Every known qualifier is recognised by its name, and "state" is read as "status". */
  lemma QualifierNames(k: Qualifier)
    requires k != UnknownQual
    ensures QualifierOf(QualifierName(k)) == k
    ensures QualifierOf("state") == StatusQual
  {
  }

  /** The list field a list qualifier fills. */
  function ListOf(st: QueryState, f: ListField): seq<string> {
    match f
    case AuthorList => st.author
    case AssigneeList => st.assignee
    case CcbList => st.ccb
    case CcbPendingList => st.ccbPending
    case ActorList => st.actor
    case ParticipantList => st.participant
    case LabelList => st.labels
    case TitleList => st.title
  }

  /** The state with `v` appended to list `f`, and nothing else changed. */
  function AppendValue(st: QueryState, f: ListField, v: string): (r: QueryState)
    ensures forall other :: ListOf(r, other) == ListOf(st, other) + (if other == f then [v] else [])
    ensures r.status == st.status && r.noLabel == st.noLabel
    ensures r.createBefore == st.createBefore && r.createAfter == st.createAfter
    ensures r.editBefore == st.editBefore && r.editAfter == st.editAfter
    ensures r.orderBy == st.orderBy && r.orderDirection == st.orderDirection
    ensures r.colorBy == st.colorBy && r.colorByLabelPrefix == st.colorByLabelPrefix && r.colorByCcbUserName == st.colorByCcbUserName
  {
    match f
    case AuthorList => st.(author := st.author + [v])
    case AssigneeList => st.(assignee := st.assignee + [v])
    case CcbList => st.(ccb := st.ccb + [v])
    case CcbPendingList => st.(ccbPending := st.ccbPending + [v])
    case ActorList => st.(actor := st.actor + [v])
    case ParticipantList => st.(participant := st.participant + [v])
    case LabelList => st.(labels := st.labels + [v])
    case TitleList => st.(title := st.title + [v])
  }

  /** The date bound of field `f`. */
  function TimeOf(st: QueryState, f: TimeField): Option<int> {
    match f
    case CreateBefore => st.createBefore
    case CreateAfter => st.createAfter
    case EditBefore => st.editBefore
    case EditAfter => st.editAfter
  }

  /** The state with date bound `f` set to `t`, and nothing else changed. */
  function SetTime(st: QueryState, f: TimeField, t: int): (r: QueryState)
    ensures forall other :: TimeOf(r, other) == (if other == f then Some(t) else TimeOf(st, other))
    ensures forall other :: ListOf(r, other) == ListOf(st, other)
    ensures r.status == st.status && r.noLabel == st.noLabel
    ensures r.orderBy == st.orderBy && r.orderDirection == st.orderDirection
    ensures r.colorBy == st.colorBy && r.colorByLabelPrefix == st.colorByLabelPrefix && r.colorByCcbUserName == st.colorByCcbUserName
  {
    match f
    case CreateBefore => st.(createBefore := Some(t))
    case CreateAfter => st.(createAfter := Some(t))
    case EditBefore => st.(editBefore := Some(t))
    case EditAfter => st.(editAfter := Some(t))
  }

  // ---- coloring ----

  /** parseColoring's reading of a value: the coloring and its argument (the label prefix
      or the user name; empty for author and assignee). */
  function ColoringOf(v: string): (r: Option<(ColorBy, string)>)
    ensures r.Some? ==> ColorByAuthor <= r.value.0 <= ColorByCcbPendingByUser
  {
    if HasPrefix(v, "ccb-pending-user:") then Some((ColorByCcbPendingByUser, TrimPrefix(v, "ccb-pending-user:")))
    else if HasPrefix(v, "label:") then Some((ColorByLabel, TrimPrefix(v, "label:")))
    else if v == "author" then Some((ColorByAuthor, ""))
    else if v == "assignee" then Some((ColorByAssignee, ""))
    else None
  }

  /** The value that names a coloring. */
  function ColoringName(kind: ColorBy, arg: string): string {
    if kind == ColorByCcbPendingByUser then "ccb-pending-user:" + arg
    else if kind == ColorByLabel then "label:" + arg
    else if kind == ColorByAuthor then "author"
    else "assignee"
  }

  lemma NotPrefix(s: string, p: string)
    requires s != [] && p != [] && s[0] != p[0]
    ensures !HasPrefix(s, p)
  {
    if |p| <= |s| {
      assert s[..|p|][0] == s[0];
    }
  }

  lemma PrefixOfConcat(p: string, arg: string)
    ensures HasPrefix(p + arg, p) && TrimPrefix(p + arg, p) == arg
  {
    assert (p + arg)[..|p|] == p;
    assert (p + arg)[|p|..] == arg;
  }

  /** Every coloring has a name that reads back as itself; the four kinds take the
      argument they need and no other. */
  lemma ColoringRoundTrip(kind: ColorBy, arg: string)
    requires ColorByAuthor <= kind <= ColorByCcbPendingByUser
    requires kind == ColorByAuthor || kind == ColorByAssignee ==> arg == ""
    ensures ColoringOf(ColoringName(kind, arg)) == Some((kind, arg))
  {
    if kind == ColorByCcbPendingByUser {
      PrefixOfConcat("ccb-pending-user:", arg);
    } else if kind == ColorByLabel {
      var name := "label:" + arg;
      PrefixOfConcat("label:", arg);
      assert name[0] == 'l';
      NotPrefix(name, "ccb-pending-user:");
      assert ColoringName(kind, arg) == name;
      assert ColoringOf(name) == Some((ColorByLabel, TrimPrefix(name, "label:")));
    } else {
      NotPrefix(ColoringName(kind, arg), "label:");
    }
  }

  /** Every accepted value is the name of the coloring it reads as. */
  lemma ColoringNamed(v: string)
    requires ColoringOf(v).Some?
    ensures ColoringName(ColoringOf(v).value.0, ColoringOf(v).value.1) == v
  {
  }

  /** The state with a coloring applied: the argument goes to the field of its kind. */
  function WithColoring(st: QueryState, c: (ColorBy, string)): QueryState {
    if c.0 == ColorByCcbPendingByUser then st.(colorBy := c.0, colorByCcbUserName := c.1)
    else if c.0 == ColorByLabel then st.(colorBy := c.0, colorByLabelPrefix := c.1)
    else st.(colorBy := c.0)
  }

  // ---- the fold over the tokens ----

  /** The record being filled in, and whether ordering and coloring were given. */
  datatype Acc = Acc(state: QueryState, sortingDone: bool, coloringDone: bool)

  /** One `status:` or `state:` token: "ALL" in any case replaces the list with every
      status; a status name is appended. */
  function StatusStep(a: Acc, v: string): Result<Acc> {
    if IsAll(v) then Ok(a.(state := a.state.(status := Statuses.AllStatuses())))
    else match Statuses.StatusFromString(v)
      case Err(m) => Err(m)
      case Ok(s) => Ok(a.(state := a.state.(status := a.state.status + [s])))
  }

  /** One `sort:` token: ordering may be given once, by one of its names. */
  function SortStep(a: Acc, v: string): Result<Acc> {
    if a.sortingDone then Err("multiple sorting")
    else match SortOrderOf(v)
      case None => Err("unknown sorting " + v)
      case Some(o) => Ok(a.(state := a.state.(orderBy := o.0, orderDirection := o.1), sortingDone := true))
  }

  /** One `color-by:` token: coloring may be given once, by one of its names. */
  function ColorStep(a: Acc, v: string): Result<Acc> {
    if a.coloringDone then Err("multiple coloring")
    else match ColoringOf(v)
      case None => Err("unknown coloring " + v)
      case Some(c) => Ok(a.(state := WithColoring(a.state, c), coloringDone := true))
  }

  /** The body of Parse's loop for one token. */
  function Step(a: Acc, t: QueryToken, parseTime: string -> Option<int>): Result<Acc> {
    var v := t.value;
    match QualifierOf(t.qualifier)
    case StatusQual => StatusStep(a, v)
    case ListQual(f) => Ok(a.(state := AppendValue(a.state, f, v)))
    case NoQual => if v == "label" then Ok(a.(state := a.state.(noLabel := true))) else Err("unknown \"no\" filter \"" + v + "\"")
    case TimeQual(f) =>
      (match parseTime(v) case None => Err("unrecognized time format") case Some(tm) => Ok(a.(state := SetTime(a.state, f, tm))))
    case SortQual => SortStep(a, v)
    case ColorQual => ColorStep(a, v)
    case UnknownQual => Err("unknown qualifier \"" + t.qualifier + "\"")
  }

  /** The record after the tokens, or the error of the first token that does not fit. */
  function Fold(ts: seq<QueryToken>, parseTime: string -> Option<int>): Result<Acc>
    decreases |ts|
  {
    if ts == [] then Ok(Acc(InitialState(), false, false))
    else match Fold(ts[..|ts| - 1], parseTime)
      case Err(m) => Err(m)
      case Ok(a) => Step(a, ts[|ts| - 1], parseTime)
  }

  /** What Parse computes from a query string. */
  function LegacySpec(query: string, parseTime: string -> Option<int>): Result<QueryState> {
    match TokenizeSpec(query)
    case Err(m) => Err(m)
    case Ok(ts) =>
      match Fold(ts, parseTime)
      case Err(m) => Err(m)
      case Ok(a) => Ok(a.state)
  }

  // ---- independent descriptions of the result ----

  /** The values of the tokens whose qualifier reads as `k`, in order. */
  function Values(ts: seq<QueryToken>, k: Qualifier): seq<string>
    decreases |ts|
  {
    if ts == [] then []
    else Values(ts[..|ts| - 1], k) + (if QualifierOf(ts[|ts| - 1].qualifier) == k then [ts[|ts| - 1].value] else [])
  }

  /** The number of tokens whose qualifier reads as `k`. */
  function Count(ts: seq<QueryToken>, k: Qualifier): nat {
    |Values(ts, k)|
  }

  /** The date the last token setting bound `f` gives, if any. */
  function LastTime(ts: seq<QueryToken>, f: TimeField, parseTime: string -> Option<int>): Option<int>
    decreases |ts|
  {
    if ts == [] then None
    else if QualifierOf(ts[|ts| - 1].qualifier) == TimeQual(f) then parseTime(ts[|ts| - 1].value)
    else LastTime(ts[..|ts| - 1], f, parseTime)
  }

  lemma StepLists(a: Acc, t: QueryToken, parseTime: string -> Option<int>, f: ListField)
    requires Step(a, t, parseTime).Ok?
    ensures ListOf(Step(a, t, parseTime).value.state, f)
         == ListOf(a.state, f) + (if QualifierOf(t.qualifier) == ListQual(f) then [t.value] else [])
  {
  }

  /** Each list holds the values of its qualifier's tokens, in the order given. */
  lemma {:induction false} FoldLists(ts: seq<QueryToken>, parseTime: string -> Option<int>, f: ListField)
    requires Fold(ts, parseTime).Ok?
    ensures ListOf(Fold(ts, parseTime).value.state, f) == Values(ts, ListQual(f))
    decreases |ts|
  {
    if ts != [] {
      FoldLists(ts[..|ts| - 1], parseTime, f);
      StepLists(Fold(ts[..|ts| - 1], parseTime).value, ts[|ts| - 1], parseTime, f);
    }
  }

  lemma StepTimes(a: Acc, t: QueryToken, parseTime: string -> Option<int>, f: TimeField)
    requires Step(a, t, parseTime).Ok?
    ensures TimeOf(Step(a, t, parseTime).value.state, f)
         == (if QualifierOf(t.qualifier) == TimeQual(f) then parseTime(t.value) else TimeOf(a.state, f))
  {
  }

  /** Each date bound is the date of the last token that sets it. */
  lemma {:induction false} FoldTimes(ts: seq<QueryToken>, parseTime: string -> Option<int>, f: TimeField)
    requires Fold(ts, parseTime).Ok?
    ensures TimeOf(Fold(ts, parseTime).value.state, f) == LastTime(ts, f, parseTime)
    decreases |ts|
  {
    if ts != [] {
      FoldTimes(ts[..|ts| - 1], parseTime, f);
      StepTimes(Fold(ts[..|ts| - 1], parseTime).value, ts[|ts| - 1], parseTime, f);
    }
  }

  lemma StepSorting(a: Acc, t: QueryToken, parseTime: string -> Option<int>)
    requires Step(a, t, parseTime).Ok?
    ensures var b := Step(a, t, parseTime).value;
      if QualifierOf(t.qualifier) == SortQual then
        !a.sortingDone && b.sortingDone && SortOrderOf(t.value) == Some((b.state.orderBy, b.state.orderDirection))
      else b.sortingDone == a.sortingDone && b.state.orderBy == a.state.orderBy && b.state.orderDirection == a.state.orderDirection
  {
  }

  /** Ordering is given at most once; without it the order is newest creation first, with it
      the order its value names. */
  lemma {:induction false} FoldSorting(ts: seq<QueryToken>, parseTime: string -> Option<int>)
    requires Fold(ts, parseTime).Ok?
    ensures var a := Fold(ts, parseTime).value;
      && Count(ts, SortQual) <= 1 && a.sortingDone == (Count(ts, SortQual) == 1)
      && (Count(ts, SortQual) == 0 ==> a.state.orderBy == OrderByCreation && a.state.orderDirection == OrderDescending)
      && (Count(ts, SortQual) == 1 ==> SortOrderOf(Values(ts, SortQual)[0]) == Some((a.state.orderBy, a.state.orderDirection)))
    decreases |ts|
  {
    if ts != [] {
      FoldSorting(ts[..|ts| - 1], parseTime);
      StepSorting(Fold(ts[..|ts| - 1], parseTime).value, ts[|ts| - 1], parseTime);
    }
  }

  lemma StepColoring(a: Acc, t: QueryToken, parseTime: string -> Option<int>)
    requires Step(a, t, parseTime).Ok?
    ensures var b := Step(a, t, parseTime).value;
      if QualifierOf(t.qualifier) == ColorQual then
        !a.coloringDone && b.coloringDone && ColoringOf(t.value).Some? && b.state.colorBy == ColoringOf(t.value).value.0
      else b.coloringDone == a.coloringDone && b.state.colorBy == a.state.colorBy
  {
  }

  /** Coloring is given at most once; without it there is none, with it the coloring its
      value names. */
  lemma {:induction false} FoldColoring(ts: seq<QueryToken>, parseTime: string -> Option<int>)
    requires Fold(ts, parseTime).Ok?
    ensures var a := Fold(ts, parseTime).value;
      && Count(ts, ColorQual) <= 1 && a.coloringDone == (Count(ts, ColorQual) == 1)
      && (Count(ts, ColorQual) == 0 ==> a.state.colorBy == 0)
      && (Count(ts, ColorQual) == 1 ==> (ColoringOf(Values(ts, ColorQual)[0]).Some?
            && a.state.colorBy == ColoringOf(Values(ts, ColorQual)[0]).value.0))
    decreases |ts|
  {
    if ts != [] {
      FoldColoring(ts[..|ts| - 1], parseTime);
      StepColoring(Fold(ts[..|ts| - 1], parseTime).value, ts[|ts| - 1], parseTime);
    }
  }

  lemma StepStatuses(a: Acc, t: QueryToken, parseTime: string -> Option<int>)
    requires Step(a, t, parseTime).Ok?
    requires forall s :: s in a.state.status ==> Statuses.IsValid(s)
    ensures forall s :: s in Step(a, t, parseTime).value.state.status ==> Statuses.IsValid(s)
  {
  }

  /** Every status collected is a valid one. */
  lemma {:induction false} FoldStatuses(ts: seq<QueryToken>, parseTime: string -> Option<int>)
    requires Fold(ts, parseTime).Ok?
    ensures forall s :: s in Fold(ts, parseTime).value.state.status ==> Statuses.IsValid(s)
    decreases |ts|
  {
    if ts != [] {
      FoldStatuses(ts[..|ts| - 1], parseTime);
      StepStatuses(Fold(ts[..|ts| - 1], parseTime).value, ts[|ts| - 1], parseTime);
    }
  }

  /** A query that parses has no token with an unknown qualifier. */
  lemma {:induction false} FoldKnown(ts: seq<QueryToken>, parseTime: string -> Option<int>)
    requires Fold(ts, parseTime).Ok?
    ensures Count(ts, UnknownQual) == 0
    decreases |ts|
  {
    if ts != [] {
      FoldKnown(ts[..|ts| - 1], parseTime);
      assert Step(Fold(ts[..|ts| - 1], parseTime).value, ts[|ts| - 1], parseTime).Ok?;
    }
  }

  /** A status token "ALL", in any case, replaces whatever statuses came before. */
  lemma AllReplaces(ts: seq<QueryToken>, v: string, qual: string, parseTime: string -> Option<int>)
    requires IsAll(v) && (qual == "status" || qual == "state") && Fold(ts, parseTime).Ok?
    ensures Fold(ts + [QueryToken(qual, v)], parseTime).Ok?
    ensures Fold(ts + [QueryToken(qual, v)], parseTime).value.state.status == Statuses.AllStatuses()
  {
    assert (ts + [QueryToken(qual, v)])[..|ts|] == ts;
  }

  /** The first token that does not fit decides the error: later tokens are not looked at. */
  lemma {:induction false} FirstErrorWins(ts: seq<QueryToken>, n: nat, parseTime: string -> Option<int>)
    requires n <= |ts| && Fold(ts[..n], parseTime).Err?
    ensures Fold(ts, parseTime) == Fold(ts[..n], parseTime)
    decreases |ts| - n
  {
    if n < |ts| {
      assert ts[..n + 1][..n] == ts[..n];
      FirstErrorWins(ts, n + 1, parseTime);
    } else {
      assert ts[..n] == ts;
    }
  }

  // ---- the methods ----

  /** parseSorting: sets the ordering a value names. */
  method ParseSorting(q: Query, value: string) returns (err: Option<string>)
    modifies q`orderBy, q`orderDirection
    ensures SortOrderOf(value).None? ==> err == Some("unknown sorting " + value) && q.orderBy == old(q.orderBy) && q.orderDirection == old(q.orderDirection)
    ensures SortOrderOf(value).Some? ==> err.None? && (q.orderBy, q.orderDirection) == SortOrderOf(value).value
  {
    if value == "id-desc" {
      q.orderBy, q.orderDirection := OrderById, OrderDescending;
    } else if value == "id" || value == "id-asc" {
      q.orderBy, q.orderDirection := OrderById, OrderAscending;
    } else if value == "creation" || value == "creation-desc" {
      q.orderBy, q.orderDirection := OrderByCreation, OrderDescending;
    } else if value == "creation-asc" {
      q.orderBy, q.orderDirection := OrderByCreation, OrderAscending;
    } else if value == "edit" || value == "edit-desc" {
      q.orderBy, q.orderDirection := OrderByEdit, OrderDescending;
    } else if value == "edit-asc" {
      q.orderBy, q.orderDirection := OrderByEdit, OrderAscending;
    } else {
      return Some("unknown sorting " + value);
    }
    err := None;
  }

  /** parseColoring: sets the coloring a value names, and its argument. */
  method ParseColoring(q: Query, value: string) returns (err: Option<string>)
    modifies q`colorBy, q`colorByLabelPrefix, q`colorByCcbUserName
    ensures ColoringOf(value).None? ==> err == Some("unknown coloring " + value) && q.State() == old(q.State())
    ensures ColoringOf(value).Some? ==> err.None? && q.State() == WithColoring(old(q.State()), ColoringOf(value).value)
  {
    if HasPrefix(value, "ccb-pending-user:") {
      q.colorBy := ColorByCcbPendingByUser;
      q.colorByCcbUserName := TrimPrefix(value, "ccb-pending-user:");
      return None;
    }
    if HasPrefix(value, "label:") {
      q.colorBy := ColorByLabel;
      q.colorByLabelPrefix := TrimPrefix(value, "label:");
      return None;
    }
    if value == "author" {
      q.colorBy := ColorByAuthor;
      return None;
    }
    if value == "assignee" {
      q.colorBy := ColorByAssignee;
      return None;
    }
    err := Some("unknown coloring " + value);
  }

  /** The loop body of Parse for a `status:` or `state:` token. */
  method ApplyStatus(q: Query, a: Acc, v: string) returns (err: Option<string>)
    requires a.state == q.State()
    modifies q`status
    ensures StatusStep(a, v).Err? <==> err.Some?
    ensures err.Some? ==> err.value == StatusStep(a, v).msg
    ensures err.None? ==> StatusStep(a, v) == Ok(a.(state := q.State()))
  {
    if IsAll(v) {
      q.status := Statuses.AllStatuses();
      return None;
    }
    var s := Statuses.StatusFromString(v);
    if s.Err? {
      return Some(s.msg);
    }
    q.status := q.status + [s.value];
    err := None;
  }

  /** The loop body of Parse for a list qualifier. */
  method ApplyList(q: Query, f: ListField, v: string)
    modifies q`author, q`assignee, q`ccb, q`ccbPending, q`actor, q`participant, q`labels, q`title
    ensures q.State() == AppendValue(old(q.State()), f, v)
  {
    match f {
      case AuthorList => q.author := q.author + [v];
      case AssigneeList => q.assignee := q.assignee + [v];
      case CcbList => q.ccb := q.ccb + [v];
      case CcbPendingList => q.ccbPending := q.ccbPending + [v];
      case ActorList => q.actor := q.actor + [v];
      case ParticipantList => q.participant := q.participant + [v];
      case LabelList => q.labels := q.labels + [v];
      case TitleList => q.title := q.title + [v];
    }
  }

  /** The loop body of Parse for a time qualifier. */
  method ApplyTime(q: Query, f: TimeField, v: string, parseTime: string -> Option<int>) returns (err: Option<string>)
    modifies q`createBefore, q`createAfter, q`editBefore, q`editAfter
    ensures parseTime(v).None? ==> err == Some("unrecognized time format")
    ensures parseTime(v).Some? ==> err.None? && q.State() == SetTime(old(q.State()), f, parseTime(v).value)
  {
    var t := parseTime(v);
    if t.None? {
      return Some("unrecognized time format");
    }
    match f {
      case CreateBefore => q.createBefore := t;
      case CreateAfter => q.createAfter := t;
      case EditBefore => q.editBefore := t;
      case EditAfter => q.editAfter := t;
    }
    err := None;
  }

  /** The loop body of Parse for one token. */
  method ApplyToken(q: Query, a: Acc, t: QueryToken, parseTime: string -> Option<int>) returns (a': Acc, err: Option<string>)
    requires a.state == q.State()
    modifies q
    ensures Step(a, t, parseTime).Err? <==> err.Some?
    ensures err.Some? ==> err.value == Step(a, t, parseTime).msg
    ensures err.None? ==> Step(a, t, parseTime) == Ok(a') && a'.state == q.State()
  {
    var v := t.value;
    a' := a;
    match QualifierOf(t.qualifier) {
      case StatusQual =>
        err := ApplyStatus(q, a, v);
        a' := a.(state := q.State());
      case ListQual(f) =>
        ApplyList(q, f, v);
        a' := a.(state := q.State());
        err := None;
      case NoQual =>
        if v != "label" {
          return a, Some("unknown \"no\" filter \"" + v + "\"");
        }
        q.noLabel := true;
        a' := a.(state := q.State());
        err := None;
      case TimeQual(f) =>
        err := ApplyTime(q, f, v, parseTime);
        a' := a.(state := q.State());
      case SortQual =>
        if a.sortingDone {
          return a, Some("multiple sorting");
        }
        err := ParseSorting(q, v);
        a' := a.(state := q.State(), sortingDone := true);
      case ColorQual =>
        if a.coloringDone {
          return a, Some("multiple coloring");
        }
        err := ParseColoring(q, v);
        a' := a.(state := q.State(), coloringDone := true);
      case UnknownQual =>
        err := Some("unknown qualifier \"" + t.qualifier + "\"");
    }
  }

  /** Parse: tokenizes the query and applies each token to a new Query in turn. */
  method LegacyParse(query: string, parseTime: string -> Option<int>) returns (q: Query?, err: Option<string>)
    ensures err.None? <==> LegacySpec(query, parseTime).Ok?
    ensures err.Some? ==> q == null && err.value == LegacySpec(query, parseTime).msg
    ensures err.None? ==> q != null && fresh(q) && q.State() == LegacySpec(query, parseTime).value
  {
    var tokens := Tokenize(query);
    if tokens.Err? {
      return null, Some(tokens.msg);
    }
    var ts := tokens.value;
    q := new Query();
    var a := Acc(q.State(), false, false);
    for i := 0 to |ts|
      invariant fresh(q)
      invariant Fold(ts[..i], parseTime) == Ok(a) && a.state == q.State()
    {
      assert ts[..i + 1][..i] == ts[..i];
      var e;
      a, e := ApplyToken(q, a, ts[i], parseTime);
      if e.Some? {
        FirstErrorWins(ts, i + 1, parseTime);
        return null, e;
      }
    }
    assert ts[..|ts|] == ts;
    err := None;
  }
}
