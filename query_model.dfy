/** The two forms a ticket query takes (query/query.go): the compiled query the parser
    builds, with at most one filter, one ordering and one coloring node; and the older flat
    record of filter values that the `qualifier:value` parser fills in. */
module QueryModel {
  import opened Wrappers
  import opened QueryAst
  import Statuses = Status

  /** CompiledQuery: each of the three slots is empty (Go's nil) or holds one node. */
  datatype CompiledQuery = CompiledQuery(filter: Option<FilterNode>, order: Option<OrderByNode>, color: Option<ColorByNode>)

  /** CompiledQuery.String: three slots separated by spaces. The text of a color node is
      written into the ordering slot, replacing the ordering node's, and the color slot is
      always empty. */
  function CompiledString(q: CompiledQuery, fmtTime: int -> string): (r: string)
    ensures |r| >= 2 && r[|r| - 1] == ' '
    ensures q.filter.None? ==> r[0] == ' '
  {
    var filter := match q.filter case None => "" case Some(f) => FilterString(f, fmtTime);
    var order := match q.order case None => "" case Some(o) => OrderString(o);
    var order' := match q.color case None => order case Some(c) => ColorString(c, fmtTime);
    filter + " " + order' + " " + ""
  }

  /** What CompiledQuery.String shows: absent nodes leave their slots empty, a color node
      hides the ordering node, and the last slot is always empty. */
  lemma CompiledStringSlots(q: CompiledQuery, fmtTime: int -> string)
    ensures CompiledString(CompiledQuery(None, None, None), fmtTime) == "  "
    ensures q.color.Some? ==> CompiledString(q, fmtTime) == CompiledString(q.(order := None), fmtTime)
    ensures q.color.None? && q.order.Some? ==>
      CompiledString(q, fmtTime) == CompiledString(q.(order := None), fmtTime)[..|CompiledString(q.(order := None), fmtTime)| - 1] + OrderString(q.order.value) + " "
    ensures var s := CompiledString(q, fmtTime); |s| >= 2 && s[|s| - 1] == ' '
    ensures q.filter.None? ==> CompiledString(q, fmtTime)[0] == ' '
  {
    assert CompiledString(CompiledQuery(None, None, None), fmtTime) == "" + " " + "" + " " + "";
    if q.color.None? && q.order.Some? {
      OrderSlot(q, fmtTime);
    }
  }

  /** Without a color node, the ordering node's text fills the middle slot. */
  lemma OrderSlot(q: CompiledQuery, fmtTime: int -> string)
    requires q.color.None? && q.order.Some?
    ensures CompiledString(q, fmtTime) == CompiledString(q.(order := None), fmtTime)[..|CompiledString(q.(order := None), fmtTime)| - 1] + OrderString(q.order.value) + " "
  {
    var filter := match q.filter case None => "" case Some(f) => FilterString(f, fmtTime);
    var bare := CompiledString(q.(order := None), fmtTime);
    assert bare == filter + " " + "" + " " + "";
    assert bare[..|bare| - 1] == filter + " ";
    assert CompiledString(q, fmtTime) == filter + " " + OrderString(q.order.value) + " " + "";
  }

  /** The values a Query holds, as one value. */
  datatype QueryState = QueryState(
    status: seq<Statuses.Status>, author: seq<string>, assignee: seq<string>, ccb: seq<string>,
    ccbPending: seq<string>, actor: seq<string>, participant: seq<string>, labels: seq<string>,
    title: seq<string>, noLabel: bool,
    createBefore: Option<int>, createAfter: Option<int>, editBefore: Option<int>, editAfter: Option<int>,
    orderBy: OrderBy, orderDirection: OrderDirection,
    colorBy: ColorBy, colorByLabelPrefix: string, colorByCcbUserName: string)

  /** The state of a new Query. */
  function InitialState(): QueryState {
    QueryState([], [], [], [], [], [], [], [], [], false, None, None, None, None,
               OrderByCreation, OrderDescending, 0, "", "")
  }

  /** Query: the flat record of filter values (the embedded Filters) and the ordering and
      coloring choices. A date bound is None while unset (Go's zero time). */
  class Query {
    var status: seq<Statuses.Status>
    var author: seq<string>
    var assignee: seq<string>
    var ccb: seq<string>
    var ccbPending: seq<string>
    var actor: seq<string>
    var participant: seq<string>
    var labels: seq<string>
    var title: seq<string>
    var noLabel: bool
    var createBefore: Option<int>
    var createAfter: Option<int>
    var editBefore: Option<int>
    var editAfter: Option<int>
    var orderBy: OrderBy
    var orderDirection: OrderDirection
    var colorBy: ColorBy
    var colorByLabelPrefix: string
    var colorByCcbUserName: string

    function State(): QueryState
      reads this
    {
      QueryState(status, author, assignee, ccb, ccbPending, actor, participant, labels, title, noLabel,
                 createBefore, createAfter, editBefore, editAfter, orderBy, orderDirection,
                 colorBy, colorByLabelPrefix, colorByCcbUserName)
    }

    /** NewQuery: the identity query, newest creation first, no coloring. */
    constructor ()
      ensures status == [] && author == [] && assignee == [] && ccb == [] && ccbPending == []
      ensures actor == [] && participant == [] && labels == [] && title == [] && !noLabel
      ensures createBefore.None? && createAfter.None? && editBefore.None? && editAfter.None?
      ensures orderBy == OrderByCreation && orderDirection == OrderDescending
      ensures colorBy == 0 && colorByLabelPrefix == "" && colorByCcbUserName == ""
      ensures State() == InitialState()
    {
      status, author, assignee, ccb, ccbPending := [], [], [], [], [];
      actor, participant, labels, title, noLabel := [], [], [], [], false;
      createBefore, createAfter, editBefore, editAfter := None, None, None, None;
      orderBy, orderDirection := OrderByCreation, OrderDescending;
      colorBy, colorByLabelPrefix, colorByCcbUserName := 0, "", "";
    }
  }
}
