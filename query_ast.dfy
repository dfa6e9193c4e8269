/** The syntax tree of a compiled query (query/ast.go): filter nodes that select tickets,
    the ordering and coloring nodes, and the literal matchers filters compare against; how
    each node is written back as query text. The order and color enumerations of
    query/query.go live here too, because the ordering node holds them. */
module QueryAst {
  import opened Wrappers
  import opened StrUtil
  import opened QueryLexer
  import Statuses = Status

  // ---- query/query.go enumerations: each starts at 1, so 0 means "not set" ----

  type OrderBy = int
  const OrderById: OrderBy := 1
  const OrderByCreation: OrderBy := 2
  const OrderByEdit: OrderBy := 3

  type OrderDirection = int
  const OrderAscending: OrderDirection := 1
  const OrderDescending: OrderDirection := 2

  type ColorBy = int
  const ColorByAuthor: ColorBy := 1
  const ColorByAssignee: ColorBy := 2
  const ColorByLabel: ColorBy := 3
  const ColorByCcbPendingByUser: ColorBy := 4

  // ---- literal matchers ----

  /** LiteralNode: the literal token a filter compares against. */
  datatype Matcher = LiteralNode(token: Token)

  /** LiteralNode.String: the literal between double quotes. */
  function MatcherString(m: Matcher): (r: string)
    ensures |r| == |m.token.literal| + 2 && r[0] == '"' && r[|r| - 1] == '"'
    ensures r[1..|r| - 1] == m.token.literal
  {
    Quote(m.token.literal)
  }

  /** LiteralNode.Match: exact equality with the literal. */
  predicate Match(m: Matcher, text: string) {
    text == m.token.literal
  }

  /** A literal matcher accepts its own literal and no other text. */
  lemma MatchOnlyLiteral(m: Matcher, a: string, b: string)
    ensures Match(m, m.token.literal)
    ensures Match(m, a) && Match(m, b) ==> a == b
  {
  }

  // ---- filter nodes ----

  datatype FilterNode =
    | StatusFilter(statuses: seq<Statuses.Status>, span: Span)
    | AuthorFilter(author: Matcher, span: Span)
    | AssigneeFilter(assignee: Matcher, span: Span)
    | CcbFilter(ccb: Matcher, span: Span)
    | CcbPendingFilter(ccb: Matcher, span: Span)
    | ActorFilter(actor: Matcher, span: Span)
    | ParticipantFilter(participant: Matcher, span: Span)
    | LabelFilter(labelName: Matcher, span: Span)
    | TitleFilter(title: Matcher, span: Span)
    | NotFilter(inner: FilterNode, span: Span)
    | CreationDateFilter(date: int, before: bool, span: Span)
    | EditDateFilter(date: int, before: bool, span: Span)
    | AllFilter(inners: seq<FilterNode>, span: Span)
    | AnyFilter(inners: seq<FilterNode>, span: Span)

  /** The filters that may also color tickets (the ColorFilterNode marker). */
  predicate IsColorFilter(f: FilterNode) {
    f.AuthorFilter? || f.AssigneeFilter? || f.CcbPendingFilter? || f.LabelFilter?
  }

  /** The query-language keyword that introduces a node of this kind. */
  function Keyword(f: FilterNode): (r: string)
    ensures r != [] && '(' !in r && ' ' !in r
  {
    match f
    case StatusFilter(_, _) => "status"
    case AuthorFilter(_, _) => "author"
    case AssigneeFilter(_, _) => "assignee"
    case CcbFilter(_, _) => "ccb"
    case CcbPendingFilter(_, _) => "ccb-pending"
    case ActorFilter(_, _) => "actor"
    case ParticipantFilter(_, _) => "participant"
    case LabelFilter(_, _) => "label"
    case TitleFilter(_, _) => "title"
    case NotFilter(_, _) => "not"
    case CreationDateFilter(_, before, _) => if before then "create-before" else "create-after"
    case EditDateFilter(_, before, _) => if before then "edit-before" else "edit-after"
    case AllFilter(_, _) => "all"
    case AnyFilter(_, _) => "any"
  }

  /** The status names, in order. */
  function StatusNames(ss: seq<Statuses.Status>): (r: seq<string>)
    ensures |r| == |ss| && forall i :: 0 <= i < |ss| ==> r[i] == Statuses.StatusString(ss[i])
  {
    seq(|ss|, i requires 0 <= i < |ss| => Statuses.StatusString(ss[i]))
  }

  /** The String method of every filter node. A title filter is introduced by `titleHead`;
      every other node by its own keyword. Dates are written by `fmtTime`, standing for Go's
      default formatting of a time. */
  function Render(f: FilterNode, fmtTime: int -> string, titleHead: string): (r: string)
    ensures HasPrefix(r, (if f.TitleFilter? then titleHead else Keyword(f)) + "(")
    ensures |r| > 0 && r[|r| - 1] == ')'
    decreases f, 1
  {
    (if f.TitleFilter? then titleHead else Keyword(f)) + "(" + Args(f, fmtTime, titleHead) + ")"
  }

  /** The text between a node's parentheses. */
  function Args(f: FilterNode, fmtTime: int -> string, titleHead: string): string
    decreases f, 0
  {
    match f
    case StatusFilter(ss, _) => Join(StatusNames(ss), ", ")
    case AuthorFilter(m, _) => MatcherString(m)
    case AssigneeFilter(m, _) => MatcherString(m)
    case CcbFilter(m, _) => MatcherString(m)
    case CcbPendingFilter(m, _) => MatcherString(m)
    case ActorFilter(m, _) => MatcherString(m)
    case ParticipantFilter(m, _) => MatcherString(m)
    case LabelFilter(m, _) => MatcherString(m)
    case TitleFilter(m, _) => MatcherString(m)
    case NotFilter(inner, _) => Render(inner, fmtTime, titleHead)
    case CreationDateFilter(d, _, _) => fmtTime(d)
    case EditDateFilter(d, _, _) => fmtTime(d)
    case AllFilter(fs, _) => Join(RenderAll(fs, fmtTime, titleHead), ", ")
    case AnyFilter(fs, _) => Join(RenderAll(fs, fmtTime, titleHead), ", ")
  }

  /** The texts of a list of filters, in order. */
  function RenderAll(fs: seq<FilterNode>, fmtTime: int -> string, titleHead: string): (r: seq<string>)
    ensures |r| == |fs| && forall i :: 0 <= i < |fs| ==> r[i] == Render(fs[i], fmtTime, titleHead)
    decreases fs
  {
    seq(|fs|, i requires 0 <= i < |fs| => Render(fs[i], fmtTime, titleHead))
  }

  /** FilterNode.String as query/ast.go writes it: a title filter is written "label(...)",
      exactly like a label filter. */
  function FilterStringAsWritten(f: FilterNode, fmtTime: int -> string): (r: string)
    ensures HasPrefix(r, (if f.TitleFilter? then "label" else Keyword(f)) + "(")
  {
    Render(f, fmtTime, "label")
  }

  /** FilterNode.String with the title filter written "title(...)": every node's text starts
      with the keyword that introduces that node in a query. */
  function FilterString(f: FilterNode, fmtTime: int -> string): (r: string)
    ensures HasPrefix(r, Keyword(f) + "(") && r[|r| - 1] == ')'
  {
    Render(f, fmtTime, "title")
  }

  /** As written, a title filter and a label filter on the same literal have the same text,
      although they select tickets by different fields. */
  lemma TitleRendersAsLabel(m: Matcher, sp: Span, fmtTime: int -> string)
    ensures Keyword(TitleFilter(m, sp)) != Keyword(LabelFilter(m, sp))
    ensures FilterStringAsWritten(TitleFilter(m, sp), fmtTime) == FilterStringAsWritten(LabelFilter(m, sp), fmtTime)
  {
    assert Args(TitleFilter(m, sp), fmtTime, "label") == MatcherString(m) == Args(LabelFilter(m, sp), fmtTime, "label");
  }

  /** Two texts that start with different keywords, each followed by `(`, differ. */
  lemma {:induction false} DistinctHeads(a: string, b: string, x: string, y: string)
    requires '(' !in a && '(' !in b && a != b
    requires HasPrefix(x, a + "(") && HasPrefix(y, b + "(")
    ensures x != y
  {
    if |a| == |b| {
      var k :| 0 <= k < |a| && a[k] != b[k];
      assert x[k] == (a + "(")[k] && y[k] == (b + "(")[k];
    } else if |a| < |b| {
      assert x[|a|] == (a + "(")[|a|];
      assert y[|a|] == (b + "(")[|a|] == b[|a|];
    } else {
      assert y[|b|] == (b + "(")[|b|];
      assert x[|b|] == (a + "(")[|b|] == a[|b|];
    }
  }

  /** Corrected, a node's text tells its kind: nodes introduced by different keywords are
      never written the same way. */
  lemma FilterStringTellsKind(f: FilterNode, g: FilterNode, fmtTime: int -> string)
    requires Keyword(f) != Keyword(g)
    ensures FilterString(f, fmtTime) != FilterString(g, fmtTime)
  {
    DistinctHeads(Keyword(f), Keyword(g), FilterString(f, fmtTime), FilterString(g, fmtTime));
  }

  /** The texts of a list of filters, in order. */
  function InnerStrings(fs: seq<FilterNode>, fmtTime: int -> string): (r: seq<string>)
    ensures |r| == |fs| && forall i :: 0 <= i < |fs| ==> r[i] == FilterString(fs[i], fmtTime)
  {
    seq(|fs|, i requires 0 <= i < |fs| => FilterString(fs[i], fmtTime))
  }

  /** `not` wraps the text of its inner filter. */
  lemma NotString(inner: FilterNode, sp: Span, fmtTime: int -> string)
    ensures FilterString(NotFilter(inner, sp), fmtTime) == "not(" + FilterString(inner, fmtTime) + ")"
  {
    assert Args(NotFilter(inner, sp), fmtTime, "title") == FilterString(inner, fmtTime);
    assert Keyword(NotFilter(inner, sp)) + "(" == "not(";
  }

  lemma RenderAllTitle(fs: seq<FilterNode>, fmtTime: int -> string)
    ensures RenderAll(fs, fmtTime, "title") == InnerStrings(fs, fmtTime)
  {
    var a, b := RenderAll(fs, fmtTime, "title"), InnerStrings(fs, fmtTime);
    forall i | 0 <= i < |fs|
      ensures a[i] == b[i]
    {
      assert a[i] == Render(fs[i], fmtTime, "title") == FilterString(fs[i], fmtTime);
    }
  }

  /** A conjunction or disjunction lists the texts of its inner filters after its keyword. */
  lemma ListString(f: FilterNode, fmtTime: int -> string)
    requires f.AllFilter? || f.AnyFilter?
    ensures FilterString(f, fmtTime) == Keyword(f) + "(" + Join(InnerStrings(f.inners, fmtTime), ", ") + ")"
  {
    var parts := RenderAll(f.inners, fmtTime, "title");
    RenderAllTitle(f.inners, fmtTime);
    assert parts == InnerStrings(f.inners, fmtTime);
    assert Args(f, fmtTime, "title") == Join(parts, ", ");
  }

  /** `all` lists the texts of its inner filters, separated by ", ". */
  lemma AllString(fs: seq<FilterNode>, sp: Span, fmtTime: int -> string)
    ensures FilterString(AllFilter(fs, sp), fmtTime) == "all(" + Join(InnerStrings(fs, fmtTime), ", ") + ")"
  {
    ListString(AllFilter(fs, sp), fmtTime);
    assert Keyword(AllFilter(fs, sp)) + "(" == "all(";
  }

  /** `any` lists the texts of its inner filters, separated by ", ". */
  lemma AnyString(fs: seq<FilterNode>, sp: Span, fmtTime: int -> string)
    ensures FilterString(AnyFilter(fs, sp), fmtTime) == "any(" + Join(InnerStrings(fs, fmtTime), ", ") + ")"
  {
    ListString(AnyFilter(fs, sp), fmtTime);
    assert Keyword(AnyFilter(fs, sp)) + "(" == "any(";
  }

  /** `status` lists the names of its statuses, separated by ", ". */
  lemma StatusString(ss: seq<Statuses.Status>, sp: Span, fmtTime: int -> string)
    ensures FilterString(StatusFilter(ss, sp), fmtTime) == "status(" + Join(StatusNames(ss), ", ") + ")"
  {
    assert Args(StatusFilter(ss, sp), fmtTime, "title") == Join(StatusNames(ss), ", ");
    assert Keyword(StatusFilter(ss, sp)) + "(" == "status(";
  }

  // ---- ordering and coloring nodes ----

  /** OrderByNode: the ordering key and direction, written as numbers. */
  datatype OrderByNode = OrderByNode(orderBy: OrderBy, orderDirection: OrderDirection, span: Span)

  function OrderString(o: OrderByNode): (r: string)
    ensures HasPrefix(r, "order-by(") && r[|r| - 1] == ')'
  {
    "order-by(" + Itoa(o.orderBy) + ", " + Itoa(o.orderDirection) + ")"
  }

  /** An ordering node's text tells its key and direction. */
  lemma OrderStringTellsOrder(o: OrderByNode, p: OrderByNode)
    requires OrderById <= o.orderBy <= OrderByEdit && OrderById <= p.orderBy <= OrderByEdit
    requires OrderAscending <= o.orderDirection <= OrderDescending
    requires OrderAscending <= p.orderDirection <= OrderDescending
    ensures OrderString(o) == OrderString(p) <==> (o.orderBy == p.orderBy && o.orderDirection == p.orderDirection)
  {
    if OrderString(o) == OrderString(p) {
      assert OrderString(o)[9] == Itoa(o.orderBy)[0];
      assert OrderString(p)[9] == Itoa(p.orderBy)[0];
      assert OrderString(o)[12] == Itoa(o.orderDirection)[0];
      assert OrderString(p)[12] == Itoa(p.orderDirection)[0];
    }
  }

  /** ColorByNode: the coloring filter, or none (Go's nil, written "<nil>"). */
  datatype ColorByNode = ColorByNode(colorFilter: Option<FilterNode>, span: Span)

  function ColorString(c: ColorByNode, fmtTime: int -> string): (r: string)
    ensures HasPrefix(r, "color-by(") && r[|r| - 1] == ')'
    ensures c.colorFilter.None? ==> r == "color-by(<nil>)"
  {
    "color-by(" + (match c.colorFilter case None => "<nil>" case Some(f) => FilterString(f, fmtTime)) + ")"
  }

  /** Every syntax node the parser produces. */
  datatype AstNode = Filter(filter: FilterNode) | Order(order: OrderByNode) | Color(color: ColorByNode) | Literal(literal: Matcher)

  /** The Span method of every node: a literal's is its token's. */
  function NodeSpan(n: AstNode): Span {
    match n
    case Filter(f) => f.span
    case Order(o) => o.span
    case Color(c) => c.span
    case Literal(m) => m.token.span
  }
}
