/** The query parser (query/parser.go): a recursive-descent parser over the lexer's tokens
    that builds one filter, one ordering and one coloring node at most, and reports errors
    with the span they concern and the chain of expressions being parsed. */
module QueryParser {
  import opened Wrappers
  import opened StrUtil
  import opened QueryLexer
  import opened QueryAst
  import opened QueryModel
  import Statuses = Status

  // ---- errors ----

  /** ParseError: the query, the span at fault and the message. */
  datatype ParseError = ParseError(query: string, span: Span, message: string)

  /** The sequence in reverse order. */
  function Reversed(s: seq<string>): (r: seq<string>)
    ensures |r| == |s| && forall i :: 0 <= i < |s| ==> r[i] == s[|s| - 1 - i]
  {
    if s == [] then [] else [s[|s| - 1]] + Reversed(s[..|s| - 1])
  }

  /** The message newParseError builds: the problem, then the expressions being parsed from
      the innermost outwards, each on a new indented line. */
  function ContextMessage(stack: seq<string>, message: string): string {
    message + "\n\t" + Join(Reversed(stack), "\n\t")
  }

  lemma JoinHead(parts: seq<string>, sep: string)
    requires parts != []
    ensures HasPrefix(Join(parts, sep), parts[0])
  {
  }

  /** The innermost expression is named first. */
  lemma ContextMessageInnermostFirst(stack: seq<string>, message: string)
    requires stack != []
    ensures HasPrefix(ContextMessage(stack, message), message + "\n\t" + stack[|stack| - 1])
  {
    var r := Reversed(stack);
    JoinHead(r, "\n\t");
    var j := Join(r, "\n\t");
    assert j[..|r[0]|] == r[0];
    var m := message + "\n\t";
    assert ContextMessage(stack, message) == m + j;
    assert (m + j)[..|m| + |r[0]|] == m + j[..|r[0]|];
  }

  /** newParseError: the context stack is reversed by prepending each entry in turn. */
  method NewParseError(query: string, stack: seq<string>, span: Span, message: string) returns (e: ParseError)
    ensures e == ParseError(query, span, ContextMessage(stack, message))
  {
    var reversed: seq<string> := [];
    for i := 0 to |stack|
      invariant reversed == Reversed(stack[..i])
    {
      assert stack[..i + 1][..i] == stack[..i];
      reversed := [stack[i]] + reversed;
    }
    assert stack[..|stack|] == stack;
    e := ParseError(query, span, message + "\n\t" + Join(reversed, "\n\t"));
  }

  const Underline := "\U{1b}[4m"
  const UnderlineReset := "\U{1b}[24m"
  const Red := "\U{1b}[31m"
  const ResetColor := "\U{1b}[0m"

  predicate SpanInside(query: string, span: Span) {
    0 <= span.begin <= span.end <= |query|
  }

  /** The query with the text between `b` and `e` shown red and underlined. */
  function Highlight(query: string, b: int, e: int): string
    requires 0 <= b <= e <= |query|
  {
    query[..b] + Red + Underline + query[b..e] + UnderlineReset + ResetColor + query[e..]
  }

  /** ParseError.Error as written: Go slices the query by the span, which panics (None here)
      when the span does not lie inside the query. */
  function ErrorTextAsWritten(e: ParseError): (r: Option<string>)
    ensures r.Some? <==> SpanInside(e.query, e.span)
  {
    if SpanInside(e.query, e.span) then Some(e.message + "\n" + Highlight(e.query, e.span.begin, e.span.end) + "\n")
    else None
  }

  /** The parser reports errors at the span of the end-of-input token, which always reaches
      one byte past the query: as written, rendering any such error panics (for the query
      `status(`, the error "Expected literal" at [7, 8)). */
  lemma EndOfInputErrorPanics(query: string, message: string)
    ensures LexAt(query, |query|).Lexed? && LexAt(query, |query|).token.tokenType == EofToken
    ensures ErrorTextAsWritten(ParseError(query, LexAt(query, |query|).token.span, message)).None?
  {
    LexPastEnd(query, |query|);
  }

  /** The span clipped to the query. */
  function Clip(query: string, span: Span): (r: (int, int))
    ensures 0 <= r.0 <= r.1 <= |query|
    ensures SpanInside(query, span) ==> r == (span.begin, span.end)
  {
    var b := if span.begin < 0 then 0 else if span.begin > |query| then |query| else span.begin;
    var e := if span.end < b then b else if span.end > |query| then |query| else span.end;
    (b, e)
  }

  /** ParseError.Error with the span clipped to the query: the message, then the whole query
      with the part under the span highlighted. */
  function ErrorText(e: ParseError): (r: string)
    ensures var (b, en) := Clip(e.query, e.span);
      r == e.message + "\n" + e.query[..b] + Red + Underline + e.query[b..en] + UnderlineReset + ResetColor + e.query[en..] + "\n"
    ensures SpanInside(e.query, e.span) ==> ErrorTextAsWritten(e) == Some(r)
  {
    var (b, en) := Clip(e.query, e.span);
    e.message + "\n" + Highlight(e.query, b, en) + "\n"
  }

  /** Without its color codes, the highlighted query is the query itself. */
  lemma HighlightKeepsQuery(query: string, b: int, e: int)
    requires 0 <= b <= e <= |query|
    ensures query[..b] + query[b..e] + query[e..] == query
  {
    assert query == query[..b] + query[b..];
    assert query[b..] == query[b..e] + query[e..];
  }

  /** The message of a misspelt status: the message, then the query with the status
      argument highlighted. */
  lemma ErrorTextExample(q: string)
    requires q == "status(" + "propposed" + ")"
    ensures ErrorText(ParseError(q, Span(7, 16), "Invalid ticket status"))
      == "Invalid ticket status" + "\n" + "status(" + Red + Underline + "propposed" + UnderlineReset + ResetColor + ")" + "\n"
  {
    ExampleQuerySlices(q);
  }

  lemma ExampleQuerySlices(q: string)
    requires q == "status(" + "propposed" + ")"
    ensures |q| == 17 && q[..7] == "status(" && q[7..16] == "propposed" && q[16..] == ")"
  {
  }

  /** Go's rendering of a token type: `%q` of the number prints it as a quoted control
      character, `%s` as a bad-verb notice. */
  function TypeNumber(t: TokenType): nat {
    match t
    case IdentToken => 0
    case LparenToken => 1
    case RparenToken => 2
    case CommaToken => 3
    case StringToken => 4
    case EofToken => 5
  }

  function TypeQuoted(t: TokenType): string {
    "'\\x0" + [(('0' as int) + TypeNumber(t)) as char] + "'"
  }

  function TypeBadVerb(t: TokenType): string {
    "%!s(query.TokenType=" + NatToString(TypeNumber(t)) + ")"
  }

  // ---- keywords ----

  /** The statement and expression keywords of the keyword table. */
  datatype KeywordKind = KwStatus | KwMatcher(name: string) | KwNot | KwDate(edit: bool, before: bool)
                   | KwAll | KwAny | KwSort | KwColor

  /** The keywords of the filters that compare one literal. */
  const MatcherKeywords: set<string> := {"author", "assignee", "ccb", "ccb-pending", "actor", "participant", "label", "title"}

  /** The keyword table. */
  function KeywordOf(lit: string): (r: Option<KeywordKind>)
    ensures r.Some? && r.value.KwMatcher? ==> r.value.name == lit && lit in MatcherKeywords
  {
    if lit == "status" then Some(KwStatus)
    else if lit in MatcherKeywords then Some(KwMatcher(lit))
    else if lit == "not" then Some(KwNot)
    else if lit == "create-before" then Some(KwDate(false, true))
    else if lit == "create-after" then Some(KwDate(false, false))
    else if lit == "edit-before" then Some(KwDate(true, true))
    else if lit == "edit-after" then Some(KwDate(true, false))
    else if lit == "all" then Some(KwAll)
    else if lit == "any" then Some(KwAny)
    else if lit == "sort" then Some(KwSort)
    else if lit == "color-by" then Some(KwColor)
    else None
  }

  /** `n` is a node of the kind keyword `lit` introduces. */
  predicate OfKeyword(lit: string, n: AstNode) {
    if lit == "sort" then n.Order?
    else if lit == "color-by" then n.Color?
    else n.Filter? && Keyword(n.filter) == lit
  }

  /** The keyword table knows every filter's keyword, and maps it to a filter kind. */
  lemma EveryFilterHasKeyword(f: FilterNode)
    ensures KeywordOf(Keyword(f)).Some?
    ensures KeywordOf(Keyword(f)).value != KwSort && KeywordOf(Keyword(f)).value != KwColor
  {
  }

  /** The filter comparing one literal that keyword `name` introduces. */
  function MatcherFilter(name: string, m: Matcher, span: Span): (f: FilterNode)
    requires name in MatcherKeywords
    ensures Keyword(f) == name && f.span == span
  {
    if name == "author" then AuthorFilter(m, span)
    else if name == "assignee" then AssigneeFilter(m, span)
    else if name == "ccb" then CcbFilter(m, span)
    else if name == "ccb-pending" then CcbPendingFilter(m, span)
    else if name == "actor" then ActorFilter(m, span)
    else if name == "participant" then ParticipantFilter(m, span)
    else if name == "label" then LabelFilter(m, span)
    else TitleFilter(m, span)
  }

  /** The entry each expression parser pushes on the context stack. */
  function ContextOf(kw: KeywordKind): string {
    match kw
    case KwStatus => "While parsing Status expression"
    case KwMatcher(name) =>
      if name == "author" then "While parsing Author expression"
      else if name == "assignee" then "While parsing Assignee expression"
      else if name == "ccb" then "While parsing CCB expression"
      else if name == "ccb-pending" then "While parsing CCB Pending expression"
      else if name == "actor" then "While parsing Actor expression"
      else if name == "participant" then "While parsing Participant expression"
      else if name == "label" then "While parsing Label expression"
      else "While parsing Title expression"
    case KwNot => "While parsing Not expression"
    case KwDate(edit, _) => if edit then "While parsing Edit Date expression" else "While parsing Creation Date expression"
    case KwAll => "While parsing All expression"
    case KwAny => "While parsing Any expression"
    case KwSort => "While parsing Sort expression"
    case KwColor => "While parsing Color expression"
  }

  function DateFilter(edit: bool, before: bool, date: int, span: Span): (f: FilterNode)
    ensures Keyword(f) == (if edit then (if before then "edit-before" else "edit-after")
                           else (if before then "create-before" else "create-after"))
    ensures f.span == span
  {
    if edit then EditDateFilter(date, before, span) else CreationDateFilter(date, before, span)
  }

  // ---- sort names ----

  /** The sort names: ascending by default for ids, descending for dates. */
  function SortOrderOf(name: string): (r: Option<(OrderBy, OrderDirection)>)
    ensures r.Some? ==> OrderById <= r.value.0 <= OrderByEdit && OrderAscending <= r.value.1 <= OrderDescending
  {
    if name == "id-desc" then Some((OrderById, OrderDescending))
    else if name == "id" || name == "id-asc" then Some((OrderById, OrderAscending))
    else if name == "creation" || name == "creation-desc" then Some((OrderByCreation, OrderDescending))
    else if name == "creation-asc" then Some((OrderByCreation, OrderAscending))
    else if name == "edit" || name == "edit-desc" then Some((OrderByEdit, OrderDescending))
    else if name == "edit-asc" then Some((OrderByEdit, OrderAscending))
    else None
  }

  /** The explicit name of an ordering. */
  function SortName(key: OrderBy, dir: OrderDirection): string {
    if key == OrderById then (if dir == OrderAscending then "id-asc" else "id-desc")
    else if key == OrderByCreation then (if dir == OrderAscending then "creation-asc" else "creation-desc")
    else (if dir == OrderAscending then "edit-asc" else "edit-desc")
  }

  /** Exactly nine names are accepted, every ordering has an explicit name that maps back to
      it, and the bare names take the default direction of their key. */
  lemma SortNames(name: string, key: OrderBy, dir: OrderDirection)
    ensures SortOrderOf(name).Some? <==>
      name in {"id", "id-asc", "id-desc", "creation", "creation-asc", "creation-desc", "edit", "edit-asc", "edit-desc"}
    ensures OrderById <= key <= OrderByEdit && OrderAscending <= dir <= OrderDescending ==>
      SortOrderOf(SortName(key, dir)) == Some((key, dir))
    ensures SortOrderOf("id") == Some((OrderById, OrderAscending))
    ensures SortOrderOf("creation") == Some((OrderByCreation, OrderDescending))
    ensures SortOrderOf("edit") == Some((OrderByEdit, OrderDescending))
  {
  }

  // ---- statuses ----

  /** The statuses a `status(...)` list names, or the first literal that names none. */
  datatype StatusScan = Scanned(statuses: seq<Statuses.Status>) | BadStatus(token: Token)

  /** A literal equal to "ALL" in any case stands for every status. */
  predicate IsAll(lit: string) {
    ToLower(lit) == "all"
  }

  /** The statuses one literal of a status list stands for. */
  function StatusesOf(lit: string): (r: Option<seq<Statuses.Status>>)
    ensures r.Some? <==> IsAll(lit) || Statuses.StatusFromString(lit).Ok?
    ensures r.Some? ==> forall s :: s in r.value ==> Statuses.IsValid(s)
    ensures IsAll(lit) ==> r == Some(Statuses.AllStatuses())
  {
    if IsAll(lit) then Some(Statuses.AllStatuses())
    else match Statuses.StatusFromString(lit)
      case Ok(s) => Some([s])
      case Err(_) => None
  }

  /** One literal of a status list is acceptable: it is "ALL" or names a status. */
  predicate StatusLiteral(lit: string) {
    StatusesOf(lit).Some?
  }

  /** The statuses of a list, reading each literal with `of`; the first literal `of` rejects
      ends the scan. */
  function Scan(lits: seq<Token>, of: string -> Option<seq<Statuses.Status>>): StatusScan
    decreases |lits|
  {
    if lits == [] then Scanned([])
    else
      match Scan(lits[..|lits| - 1], of)
      case BadStatus(t) => BadStatus(t)
      case Scanned(ss) =>
        var t := lits[|lits| - 1];
        match of(t.literal)
        case Some(more) => Scanned(ss + more)
        case None => BadStatus(t)
  }

  /** parseStatusExpression's reading of a status list. */
  function ScanStatuses(lits: seq<Token>): StatusScan {
    Scan(lits, StatusesOf)
  }

  lemma {:induction false} ScanAcceptsPrefix(lits: seq<Token>, n: nat, of: string -> Option<seq<Statuses.Status>>)
    requires n <= |lits|
    ensures Scan(lits[..n], of).Scanned? <==> forall i :: 0 <= i < n ==> of(lits[i].literal).Some?
  {
    if n > 0 {
      ScanAcceptsPrefix(lits, n - 1, of);
      assert lits[..n][..n - 1] == lits[..n - 1];
    }
  }

  lemma {:induction false} ScanBadPrefix(lits: seq<Token>, n: nat, of: string -> Option<seq<Statuses.Status>>)
    requires n <= |lits|
    ensures Scan(lits[..n], of).BadStatus? ==> exists k :: (0 <= k < n && Scan(lits[..n], of).token == lits[k]
      && of(lits[k].literal).None? && forall i :: 0 <= i < k ==> of(lits[i].literal).Some?)
  {
    if n > 0 {
      ScanBadPrefix(lits, n - 1, of);
      ScanAcceptsPrefix(lits, n - 1, of);
      assert lits[..n][..n - 1] == lits[..n - 1];
      if Scan(lits[..n - 1], of).Scanned? && Scan(lits[..n], of).BadStatus? {
        assert Scan(lits[..n], of).token == lits[n - 1];
      }
    }
  }

  lemma {:induction false} ScanCollects(lits: seq<Token>, of: string -> Option<seq<Statuses.Status>>)
    requires forall lit :: of(lit).Some? ==> forall s :: s in of(lit).value ==> Statuses.IsValid(s)
    ensures Scan(lits, of).Scanned? ==> forall s :: s in Scan(lits, of).statuses ==> Statuses.IsValid(s)
    decreases |lits|
  {
    if lits != [] {
      ScanCollects(lits[..|lits| - 1], of);
    }
  }

  /** A list is accepted exactly when each literal is "ALL" or names a status; the statuses
      collected are valid ones; a rejected list names its first unacceptable literal. */
  lemma ScanStatusesMeaning(lits: seq<Token>)
    ensures ScanStatuses(lits).Scanned? <==> forall i :: 0 <= i < |lits| ==> StatusLiteral(lits[i].literal)
    ensures ScanStatuses(lits).Scanned? ==> forall s :: s in ScanStatuses(lits).statuses ==> Statuses.IsValid(s)
    ensures ScanStatuses(lits).BadStatus? ==> exists k :: (0 <= k < |lits| && ScanStatuses(lits).token == lits[k]
      && !StatusLiteral(lits[k].literal) && forall i :: 0 <= i < k ==> StatusLiteral(lits[i].literal))
  {
    ScanAcceptsPrefix(lits, |lits|, StatusesOf);
    ScanBadPrefix(lits, |lits|, StatusesOf);
    ScanCollects(lits, StatusesOf);
    assert lits[..|lits|] == lits;
  }

  /** Once a prefix of the list fails, the whole list fails with the same literal. */
  lemma {:induction false} ScanSticks(lits: seq<Token>, n: nat, of: string -> Option<seq<Statuses.Status>>)
    requires n <= |lits| && Scan(lits[..n], of).BadStatus?
    ensures Scan(lits, of) == Scan(lits[..n], of)
    decreases |lits| - n
  {
    if n < |lits| {
      assert lits[..n + 1][..n] == lits[..n];
      ScanSticks(lits, n + 1, of);
    } else {
      assert lits[..n] == lits;
    }
  }

  /** The appendStatus loop of parseStatusExpression. */
  method CollectStatuses(lits: seq<Token>) returns (r: StatusScan)
    ensures r == ScanStatuses(lits)
  {
    var ss: seq<Statuses.Status> := [];
    for i := 0 to |lits|
      invariant ScanStatuses(lits[..i]) == Scanned(ss)
    {
      assert lits[..i + 1][..i] == lits[..i];
      var t := lits[i];
      if IsAll(t.literal) {
        ss := ss + Statuses.AllStatuses();
      } else {
        var st := Statuses.StatusFromString(t.literal);
        if st.Err? {
          assert ScanStatuses(lits[..i + 1]) == BadStatus(t);
          ScanSticks(lits, i + 1, StatusesOf);
          return BadStatus(t);
        }
        ss := ss + [st.value];
      }
    }
    assert lits[..|lits|] == lits;
    r := Scanned(ss);
  }

  // ---- the parser ----

  predicate IsLiteralToken(t: Token) {
    t.tokenType == IdentToken || t.tokenType == StringToken
  }

  /** Span.Extend: from the start of the first span to the end of the second. */
  function Extend(a: Span, b: Span): Span {
    Span(a.begin, b.end)
  }

  /** A node `f` of the collected ones that is not a filter, or None when all are. */
  method CollectFilters(nodes: seq<AstNode>) returns (fs: seq<FilterNode>, bad: Option<AstNode>)
    ensures bad.None? <==> forall i :: 0 <= i < |nodes| ==> nodes[i].Filter?
    ensures bad.None? ==> |fs| == |nodes| && forall i :: 0 <= i < |nodes| ==> fs[i] == nodes[i].filter
    ensures bad.Some? ==> exists k :: (0 <= k < |nodes| && bad.value == nodes[k] && !nodes[k].Filter?
      && forall i :: 0 <= i < k ==> nodes[i].Filter?)
  {
    fs := [];
    for i := 0 to |nodes|
      invariant |fs| == i && forall j :: 0 <= j < i ==> nodes[j].Filter? && fs[j] == nodes[j].filter
    {
      if !nodes[i].Filter? {
        return fs, Some(nodes[i]);
      }
      fs := fs + [nodes[i].filter];
    }
    bad := None;
  }

  class Parser {
    const query: string
    const lexer: Lexer
    /** Stands for time.ParseInLocation over the two accepted layouts. */
    const parseTime: string -> Option<int>
    var curToken: Token
    /** The expressions being parsed, outermost first (parseContext.parseStack). */
    var stack: seq<string>

    /** The current token was read from this parser's query and ends where the lexer stands;
        only the end-of-input token may reach past the query. */
    ghost predicate Valid()
      reads this, lexer
    {
      && lexer.query == query
      && 0 <= curToken.span.begin < curToken.span.end <= lexer.pos
      && (curToken.tokenType != EofToken ==> curToken.span.end <= |query|)
    }

    /** How much of the query lies ahead of the current token. */
    ghost function Remaining(): nat
      reads this
    {
      if curToken.span.begin < |query| then |query| - curToken.span.begin else 0
    }

    /** A node parsed from token `first` on: it starts at that token and ends before the
        current one. */
    predicate Covers(first: Token, node: AstNode)
      reads this
    {
      NodeSpan(node).begin == first.span.begin < NodeSpan(node).end <= curToken.span.begin
    }

    constructor (query: string, lexer: Lexer, first: Token, parseTime: string -> Option<int>)
      requires lexer.query == query && 0 <= first.span.begin < first.span.end <= lexer.pos
      requires first.tokenType != EofToken ==> first.span.end <= |query|
      ensures this.query == query && this.lexer == lexer && this.parseTime == parseTime
      ensures curToken == first && stack == [] && Valid()
    {
      this.query := query;
      this.lexer := lexer;
      this.parseTime := parseTime;
      curToken := first;
      stack := [];
    }

    /** An error at `span`, with the expressions being parsed appended to the message. */
    method Report(span: Span, message: string) returns (err: Option<ParseError>)
      ensures err == Some(ParseError(query, span, ContextMessage(stack, message)))
    {
      var e := NewParseError(query, stack, span, message);
      err := Some(e);
    }

    /** advance: the next token becomes the current one. On an unterminated string, the
        current token stays and the error is reported at its span. */
    method Advance() returns (err: Option<ParseError>)
      requires Valid()
      modifies this`curToken, lexer`pos
      ensures Valid()
      ensures LexAt(query, old(lexer.pos)).Lexed? ==> err.None? && curToken == LexAt(query, old(lexer.pos)).token
      ensures LexAt(query, old(lexer.pos)).Unterminated? ==> (curToken == old(curToken)
        && err == Some(ParseError(query, curToken.span, ContextMessage(stack, UnterminatedMessage(query, LexAt(query, old(lexer.pos)).span)))))
      ensures err.None? ==> curToken.span.begin >= old(curToken.span.end)
      ensures curToken.span.begin >= old(curToken.span.begin)
    {
      ghost var at := lexer.pos;
      var r := lexer.NextToken();
      LexSpans(query, at);
      if r.Unterminated? {
        err := Report(curToken.span, UnterminatedMessage(query, r.span));
        return;
      }
      curToken := r.token;
      err := None;
    }

    /** expectTokenTypeAndAdvance. */
    method Expect(t: TokenType) returns (err: Option<ParseError>)
      requires Valid()
      modifies this`curToken, lexer`pos
      ensures Valid() && curToken.span.begin >= old(curToken.span.begin)
      ensures old(curToken).tokenType != t ==> (curToken == old(curToken)
        && err == Some(ParseError(query, curToken.span, ContextMessage(stack, "Expected token of type " + TypeQuoted(t)))))
      ensures err.None? ==> old(curToken).tokenType == t && curToken.span.begin >= old(curToken.span.end)
      ensures old(curToken).tokenType == t && LexAt(query, old(lexer.pos)).Lexed? ==>
        err.None? && curToken == LexAt(query, old(lexer.pos)).token
    {
      if curToken.tokenType != t {
        err := Report(curToken.span, "Expected token of type " + TypeQuoted(t));
        return;
      }
      err := Advance();
    }

    /** parseDelimitedLiteral: `(`, one literal, `)`. */
    method ParseDelimitedLiteral() returns (lit: Token, span: Span, err: Option<ParseError>)
      requires Valid()
      modifies this`curToken, lexer`pos
      ensures Valid() && curToken.span.begin >= old(curToken.span.begin)
      ensures old(curToken).tokenType != LparenToken ==>
        err == Some(ParseError(query, old(curToken).span, ContextMessage(stack, "Expected token of type " + TypeQuoted(LparenToken))))
      ensures err.None? ==> && old(curToken).tokenType == LparenToken && IsLiteralToken(lit) && lit.span.begin < lit.span.end
                            && span.begin == old(curToken).span.begin < lit.span.begin
                            && lit.span.end < span.end <= curToken.span.begin
    {
      span := curToken.span;
      lit := curToken;
      err := Expect(LparenToken);
      if err.Some? {
        return;
      }
      if !IsLiteralToken(curToken) {
        err := Report(curToken.span, "Expected literal");
        return;
      }
      lit := curToken;
      err := Advance();
      if err.Some? {
        return;
      }
      span := Extend(span, curToken.span);
      err := Expect(RparenToken);
    }

    /** parseDelimitedLiteralList: `(`, literals separated by `,`, `)`; `()` is accepted. */
    method ParseDelimitedLiteralList() returns (lits: seq<Token>, span: Span, err: Option<ParseError>)
      requires Valid()
      modifies this`curToken, lexer`pos
      ensures Valid() && curToken.span.begin >= old(curToken.span.begin)
      ensures old(curToken).tokenType != LparenToken ==>
        err == Some(ParseError(query, old(curToken).span, ContextMessage(stack, "Expected token of type " + TypeQuoted(LparenToken))))
      ensures err.None? ==> (old(curToken).tokenType == LparenToken
        && span.begin == old(curToken).span.begin < span.end <= curToken.span.begin)
      ensures err.None? ==> forall t :: t in lits ==> IsLiteralToken(t) && span.begin < t.span.begin && t.span.end < span.end
      ensures err.None? ==> forall i, j :: 0 <= i < j < |lits| ==> lits[i].span.end <= lits[j].span.begin
    {
      lits := [];
      span := curToken.span;
      err := Expect(LparenToken);
      if err.Some? {
        return;
      }
      if curToken.tokenType == RparenToken {
        span := Extend(span, curToken.span);
        err := Advance();
        return;
      }
      var end;
      lits, end, err := ParseLiteralItems(span.begin);
      span := Span(span.begin, end);
    }

    /** The loop of parseDelimitedLiteralList, after `(`: literals separated by `,` up to
        and past the closing `)`, whose end is `end`. */
    method ParseLiteralItems(start: int) returns (lits: seq<Token>, end: int, err: Option<ParseError>)
      requires Valid() && start < curToken.span.begin
      modifies this`curToken, lexer`pos
      ensures Valid() && curToken.span.begin >= old(curToken.span.begin)
      ensures err.None? ==> start < end <= curToken.span.begin
      ensures err.None? ==> forall t :: t in lits ==> IsLiteralToken(t) && start < t.span.begin && t.span.end < end
      ensures err.None? ==> forall i, j :: 0 <= i < j < |lits| ==> lits[i].span.end <= lits[j].span.begin
    {
      lits, end := [], start;
      while true
        invariant Valid() && start < curToken.span.begin && curToken.span.begin >= old(curToken.span.begin)
        invariant forall t :: t in lits ==> IsLiteralToken(t) && start < t.span.begin && t.span.end <= curToken.span.begin
        invariant forall i, j :: 0 <= i < j < |lits| ==> lits[i].span.end <= lits[j].span.begin
        decreases Remaining()
      {
        if !IsLiteralToken(curToken) {
          err := Report(curToken.span, "Expected literal");
          return;
        }
        lits := lits + [curToken];
        err := Advance();
        if err.Some? {
          return;
        }
        if curToken.tokenType == RparenToken {
          end := curToken.span.end;
          err := Advance();
          return;
        } else if curToken.tokenType == CommaToken {
          err := Advance();
          if err.Some? {
            return;
          }
        } else {
          err := Report(curToken.span, "Unexpected delimiter in delimited expression");
          return;
        }
      }
    }

    /** The node a keyword expression produced, parsed from keyword token `first` on: it
        starts at the keyword and ends before the current token. */
    predicate Ends(first: Token, node: AstNode)
      reads this
    {
      NodeSpan(node).begin == first.span.begin < NodeSpan(node).end <= curToken.span.begin
    }

    /** parseDelimitedExpressionList: `(`, expressions separated by `,`, `)`; `()` is accepted. */
    method ParseDelimitedExpressionList(colorAsWritten: bool) returns (nodes: seq<AstNode>, span: Span, err: Option<ParseError>)
      requires Valid()
      modifies this`curToken, this`stack, lexer`pos
      decreases Remaining(), 0
      ensures Valid() && stack == old(stack) && curToken.span.begin >= old(curToken.span.begin)
      ensures old(curToken).tokenType != LparenToken ==>
        err == Some(ParseError(query, old(curToken).span, ContextMessage(stack, "Expected token of type " + TypeQuoted(LparenToken))))
      ensures err.None? ==> (old(curToken).tokenType == LparenToken
        && span.begin == old(curToken).span.begin < span.end <= curToken.span.begin)
      ensures err.None? ==> forall n :: n in nodes ==> span.begin < NodeSpan(n).begin < NodeSpan(n).end < span.end
      ensures err.None? ==> forall i, j :: 0 <= i < j < |nodes| ==> NodeSpan(nodes[i]).end <= NodeSpan(nodes[j]).begin
    {
      nodes := [];
      span := curToken.span;
      err := Expect(LparenToken);
      if err.Some? {
        return;
      }
      if curToken.tokenType == RparenToken {
        span := Extend(span, curToken.span);
        err := Advance();
        return;
      }
      var end;
      nodes, end, err := ParseExpressionItems(span.begin, colorAsWritten);
      span := Span(span.begin, end);
    }

    /** The loop of parseDelimitedExpressionList, after `(`: expressions separated by `,`
        up to and past the closing `)`, whose end is `end`. */
    method ParseExpressionItems(start: int, colorAsWritten: bool) returns (nodes: seq<AstNode>, end: int, err: Option<ParseError>)
      requires Valid() && start < curToken.span.begin
      modifies this`curToken, this`stack, lexer`pos
      decreases Remaining(), 5
      ensures Valid() && stack == old(stack) && curToken.span.begin >= old(curToken.span.begin)
      ensures err.None? ==> start < end <= curToken.span.begin
      ensures err.None? ==> forall n :: n in nodes ==> start < NodeSpan(n).begin < NodeSpan(n).end < end
      ensures err.None? ==> forall i, j :: 0 <= i < j < |nodes| ==> NodeSpan(nodes[i]).end <= NodeSpan(nodes[j]).begin
    {
      nodes, end := [], start;
      while true
        invariant Valid() && stack == old(stack) && start < curToken.span.begin && curToken.span.begin >= old(curToken.span.begin)
        invariant forall n :: n in nodes ==> start < NodeSpan(n).begin < NodeSpan(n).end <= curToken.span.begin
        invariant forall i, j :: 0 <= i < j < |nodes| ==> NodeSpan(nodes[i]).end <= NodeSpan(nodes[j]).begin
        decreases Remaining()
      {
        ghost var at := curToken;
        var expr;
        expr, err := ParseExpression(colorAsWritten);
        if err.Some? {
          return;
        }
        if curToken.tokenType == RparenToken {
          assert Ends(at, expr);
          nodes := nodes + [expr];
          end := curToken.span.end;
          err := Advance();
          return;
        } else if curToken.tokenType == CommaToken {
          assert Ends(at, expr);
          nodes := nodes + [expr];
          err := Advance();
          if err.Some? {
            return;
          }
        } else {
          err := Report(curToken.span, "Unexpected delimiter in delimited expression: " + TypeBadVerb(curToken.tokenType));
          return;
        }
      }
    }

    /** parseExpression: a keyword starts its expression; any other literal is a literal node. */
    method ParseExpression(colorAsWritten: bool) returns (node: AstNode, err: Option<ParseError>)
      requires Valid()
      modifies this`curToken, this`stack, lexer`pos
      decreases Remaining(), 4
      ensures Valid() && stack == old(stack) && curToken.span.begin >= old(curToken.span.begin)
      ensures !IsLiteralToken(old(curToken)) ==>
        err == Some(ParseError(query, old(curToken).span, ContextMessage(stack, "Expression cannot begin with token: " + TypeBadVerb(old(curToken).tokenType))))
      ensures err.None? ==> IsLiteralToken(old(curToken))
      ensures err.None? && KeywordOf(old(curToken).literal).None? ==> node == Literal(LiteralNode(old(curToken)))
      ensures err.None? && KeywordOf(old(curToken).literal).Some? ==> OfKeyword(old(curToken).literal, node)
      ensures err.None? ==> (Ends(old(curToken), node) || (colorAsWritten && curToken == old(curToken)))
    {
      if !IsLiteralToken(curToken) {
        node := Literal(LiteralNode(curToken));
        err := Report(curToken.span, "Expression cannot begin with token: " + TypeBadVerb(curToken.tokenType));
        return;
      }
      var first := curToken;
      var kw := KeywordOf(first.literal);
      if kw.None? {
        node := Literal(LiteralNode(first));
        err := Advance();
        return;
      }
      node, err := ParseKeyword(kw.value, colorAsWritten);
    }

    /** The keyword parsers: each names itself on the context stack while it runs, moves past
        the keyword and parses its arguments. As written, `color-by` pushes its name and
        returns an empty coloring node without consuming anything. */
    method ParseKeyword(kw: KeywordKind, colorAsWritten: bool) returns (node: AstNode, err: Option<ParseError>)
      requires Valid() && IsLiteralToken(curToken) && KeywordOf(curToken.literal) == Some(kw)
      modifies this`curToken, this`stack, lexer`pos
      decreases Remaining(), 3
      ensures Valid() && stack == old(stack) && curToken.span.begin >= old(curToken.span.begin)
      ensures err.None? ==> OfKeyword(old(curToken).literal, node)
      ensures colorAsWritten && kw == KwColor ==>
        err.None? && curToken == old(curToken) && node == Color(ColorByNode(None, Span(0, 0)))
      ensures err.None? && !(colorAsWritten && kw == KwColor) ==> Ends(old(curToken), node)
    {
      var first, saved := curToken, stack;
      stack := stack + [ContextOf(kw)];
      if colorAsWritten && kw == KwColor {
        node, err := Color(ColorByNode(None, Span(0, 0))), None;
        stack := saved;
        return;
      }
      err := Advance();
      if err.None? {
        node, err := ParseArguments(first, kw, colorAsWritten);
      } else {
        node := Literal(LiteralNode(first));
      }
      stack := saved;
    }

    /** The argument parser of keyword `kw`, once past the keyword token `first`. */
    method ParseArguments(first: Token, kw: KeywordKind, colorAsWritten: bool) returns (node: AstNode, err: Option<ParseError>)
      requires Valid() && first.span.begin < curToken.span.begin && first.span.begin < |query|
      requires KeywordOf(first.literal) == Some(kw) && !(colorAsWritten && kw == KwColor)
      modifies this`curToken, this`stack, lexer`pos
      decreases Remaining(), 2
      ensures Valid() && stack == old(stack) && curToken.span.begin >= old(curToken.span.begin)
      ensures err.None? ==> OfKeyword(first.literal, node) && Ends(first, node)
    {
      match kw {
        case KwStatus => node, err := ParseStatus(first);
        case KwMatcher(name) => node, err := ParseMatcher(first, name);
        case KwNot => node, err := ParseNot(first, colorAsWritten);
        case KwDate(edit, before) => node, err := ParseDate(first, edit, before);
        case KwAll => node, err := ParseAllAny(first, false, colorAsWritten);
        case KwAny => node, err := ParseAllAny(first, true, colorAsWritten);
        case KwSort => node, err := ParseSortOrder(first);
        case KwColor => node, err := ParseColor(first);
      }
    }

    /** parseStatusExpression, after the keyword: a literal list, each "ALL" or a status. */
    method ParseStatus(first: Token) returns (node: AstNode, err: Option<ParseError>)
      requires Valid() && first.span.begin < curToken.span.begin
      modifies this`curToken, lexer`pos
      ensures Valid() && curToken.span.begin >= old(curToken.span.begin)
      ensures err.None? ==> node.Filter? && node.filter.StatusFilter? && Ends(first, node)
      ensures err.None? ==> forall s :: s in node.filter.statuses ==> Statuses.IsValid(s)
    {
      var lits, span;
      lits, span, err := ParseDelimitedLiteralList();
      node := Filter(StatusFilter([], Extend(first.span, span)));
      if err.Some? {
        return;
      }
      var scan := CollectStatuses(lits);
      ScanStatusesMeaning(lits);
      if scan.BadStatus? {
        err := Report(scan.token.span, "Invalid ticket status");
        return;
      }
      node := Filter(StatusFilter(scan.statuses, Extend(first.span, span)));
    }

    /** The parsers of author, assignee, ccb, ccb-pending, actor, participant, label and
        title: one literal between parentheses. */
    method ParseMatcher(first: Token, name: string) returns (node: AstNode, err: Option<ParseError>)
      requires Valid() && first.span.begin < curToken.span.begin && name in MatcherKeywords
      modifies this`curToken, lexer`pos
      ensures Valid() && curToken.span.begin >= old(curToken.span.begin)
      ensures err.None? ==> Ends(first, node) && node.Filter? && Keyword(node.filter) == name
    {
      var lit, span;
      lit, span, err := ParseDelimitedLiteral();
      node := Filter(MatcherFilter(name, LiteralNode(lit), Extend(first.span, span)));
    }

    /** parseNotExpression, after the keyword: exactly one filter between parentheses. */
    method ParseNot(first: Token, colorAsWritten: bool) returns (node: AstNode, err: Option<ParseError>)
      requires Valid() && first.span.begin < curToken.span.begin
      modifies this`curToken, this`stack, lexer`pos
      decreases Remaining(), 1
      ensures Valid() && stack == old(stack) && curToken.span.begin >= old(curToken.span.begin)
      ensures err.None? ==> Ends(first, node) && node.Filter? && node.filter.NotFilter?
    {
      var list, innerSpan;
      list, innerSpan, err := ParseDelimitedExpressionList(colorAsWritten);
      node := Literal(LiteralNode(first));
      if err.Some? {
        return;
      }
      if |list| != 1 {
        err := Report(innerSpan, "Expected a single expression");
        return;
      }
      if !list[0].Filter? {
        err := Report(NodeSpan(list[0]), "Expected filter expression");
        return;
      }
      node := Filter(NotFilter(list[0].filter, Extend(first.span, innerSpan)));
    }

    /** parseCreationDateFilter and parseEditDateFilter, after the keyword: one literal
        between parentheses that parses as a time. */
    method ParseDate(first: Token, edit: bool, before: bool) returns (node: AstNode, err: Option<ParseError>)
      requires Valid() && first.span.begin < curToken.span.begin
      modifies this`curToken, lexer`pos
      ensures Valid() && curToken.span.begin >= old(curToken.span.begin)
      ensures err.None? ==> exists lit: Token :: (parseTime(lit.literal).Some?
        && node == Filter(DateFilter(edit, before, parseTime(lit.literal).value, NodeSpan(node))))
      ensures err.None? ==> Ends(first, node)
    {
      var lit, span;
      lit, span, err := ParseDelimitedLiteral();
      node := Literal(LiteralNode(first));
      if err.Some? {
        return;
      }
      var date := parseTime(lit.literal);
      if date.None? {
        err := Report(lit.span, "Invalid time");
        return;
      }
      node := Filter(DateFilter(edit, before, date.value, Extend(first.span, span)));
    }

    /** parseAndFilter and parseOrFilter, after the keyword: a list of filters. */
    method ParseAllAny(first: Token, any: bool, colorAsWritten: bool) returns (node: AstNode, err: Option<ParseError>)
      requires Valid() && first.span.begin < curToken.span.begin
      modifies this`curToken, this`stack, lexer`pos
      decreases Remaining(), 1
      ensures Valid() && stack == old(stack) && curToken.span.begin >= old(curToken.span.begin)
      ensures err.None? ==> (Ends(first, node) && node.Filter?
        && (if any then node.filter.AnyFilter? else node.filter.AllFilter?))
    {
      var list, innerSpan;
      list, innerSpan, err := ParseDelimitedExpressionList(colorAsWritten);
      node := Literal(LiteralNode(first));
      if err.Some? {
        return;
      }
      var filters, bad := CollectFilters(list);
      if bad.Some? {
        err := Report(NodeSpan(bad.value), "Expected filter expression");
        return;
      }
      var span := Extend(first.span, innerSpan);
      node := Filter(if any then AnyFilter(filters, span) else AllFilter(filters, span));
    }

    /** parseSortOrder, after the keyword: one literal naming an ordering. */
    method ParseSortOrder(first: Token) returns (node: AstNode, err: Option<ParseError>)
      requires Valid() && first.span.begin < curToken.span.begin
      modifies this`curToken, lexer`pos
      ensures Valid() && curToken.span.begin >= old(curToken.span.begin)
      ensures err.None? ==> (Ends(first, node) && node.Order?
        && exists name :: SortOrderOf(name) == Some((node.order.orderBy, node.order.orderDirection)))
    {
      var lit, span;
      lit, span, err := ParseDelimitedLiteral();
      node := Literal(LiteralNode(first));
      if err.Some? {
        return;
      }
      var order := SortOrderOf(lit.literal);
      if order.None? {
        err := Report(lit.span, "Unknown sorting");
        return;
      }
      node := Order(OrderByNode(order.value.0, order.value.1, Extend(first.span, span)));
      assert SortOrderOf(lit.literal) == Some((node.order.orderBy, node.order.orderDirection));
    }

    /** parseColor completed: after the keyword, exactly one coloring filter (author,
        assignee, ccb-pending or label) between parentheses. */
    method ParseColor(first: Token) returns (node: AstNode, err: Option<ParseError>)
      requires Valid() && first.span.begin < curToken.span.begin
      modifies this`curToken, this`stack, lexer`pos
      decreases Remaining(), 1
      ensures Valid() && stack == old(stack) && curToken.span.begin >= old(curToken.span.begin)
      ensures err.None? ==> (Ends(first, node) && node.Color?
        && node.color.colorFilter.Some? && IsColorFilter(node.color.colorFilter.value))
    {
      var list, innerSpan;
      list, innerSpan, err := ParseDelimitedExpressionList(false);
      node := Literal(LiteralNode(first));
      if err.Some? {
        return;
      }
      if |list| != 1 {
        err := Report(innerSpan, "Expected a single expression");
        return;
      }
      if !(list[0].Filter? && IsColorFilter(list[0].filter)) {
        err := Report(NodeSpan(list[0]), "Expected color filter expression");
        return;
      }
      node := Color(ColorByNode(Some(list[0].filter), Extend(first.span, innerSpan)));
    }
  
    /** parseQueryStatement: one keyword expression at the top level fills the slot of its
        kind, which must still be empty. As written, a `color-by` statement fills the
        coloring slot without consuming anything, so the next statement is the same one. */
    method ParseQueryStatement(q: CompiledQuery, colorAsWritten: bool) returns (q': CompiledQuery, err: Option<ParseError>)
      requires Valid() && IsLiteralToken(curToken)
      modifies this`curToken, this`stack, lexer`pos
      ensures Valid() && stack == old(stack) && curToken.span.begin >= old(curToken.span.begin)
      ensures KeywordOf(old(curToken).literal).None? ==> (q' == q && curToken == old(curToken)
        && err == Some(ParseError(query, curToken.span, ContextMessage(stack, "Invalid query statement keyword"))))
      ensures err.Some? ==> q' == q
      ensures err.None? ==> Fills(q, q')
      ensures colorAsWritten && old(curToken).literal == "color-by" ==> (curToken == old(curToken)
        && (q.color.None? ==> err.None? && q' == q.(color := Some(ColorByNode(None, Span(0, 0)))))
        && (q.color.Some? ==> err == Some(ParseError(query, Span(0, 0), ContextMessage(stack, "Multiple coloring criteria was specified")))))
      ensures err.None? && !(colorAsWritten && old(curToken).literal == "color-by") ==> curToken.span.begin > old(curToken.span.begin)
      ensures colorAsWritten && err.None? && q.color.None? && q'.color.Some? ==> old(curToken).literal == "color-by"
    {
      q' := q;
      var kw := KeywordOf(curToken.literal);
      if kw.None? {
        err := Report(curToken.span, "Invalid query statement keyword");
        return;
      }
      var node;
      node, err := ParseKeyword(kw.value, colorAsWritten);
      if err.Some? {
        return;
      }
      match node {
        case Filter(f) =>
          if q.filter.Some? {
            err := Report(f.span, "Multiple filtering criteria was specified");
            return;
          }
          q' := q.(filter := Some(f));
        case Order(o) =>
          if q.order.Some? {
            err := Report(o.span, "Multiple ordering criteria was specified");
            return;
          }
          q' := q.(order := Some(o));
        case Color(c) =>
          if q.color.Some? {
            err := Report(c.span, "Multiple coloring criteria was specified");
            return;
          }
          q' := q.(color := Some(c));
        case Literal(_) =>
          assert false;
      }
    }

    /** Parse: statements until the end of the input; the query so far is returned with the
        first error. */
    method Parse(colorAsWritten: bool) returns (q: CompiledQuery, err: Option<ParseError>)
      requires Valid()
      modifies this`curToken, this`stack, lexer`pos
      ensures Valid() && stack == old(stack)
      ensures err.None? ==> curToken.tokenType == EofToken
      ensures old(curToken).tokenType == EofToken ==> err.None? && q == CompiledQuery(None, None, None)
      ensures !IsLiteralToken(old(curToken)) && old(curToken).tokenType != EofToken ==> (q == CompiledQuery(None, None, None)
        && err == Some(ParseError(query, old(curToken).span, ContextMessage(stack, "Invalid query. Unexpected node of type " + TypeBadVerb(old(curToken).tokenType)))))
      ensures colorAsWritten && err.None? ==> q.color.None?
    {
      q := CompiledQuery(None, None, None);
      ghost var moved := false;
      while true
        invariant Valid() && stack == old(stack)
        invariant colorAsWritten && q.color.Some? ==> IsLiteralToken(curToken) && curToken.literal == "color-by"
        invariant !moved ==> curToken == old(curToken) && q == CompiledQuery(None, None, None)
        invariant moved ==> IsLiteralToken(old(curToken))
        decreases Remaining(), if q.color.None? then 1 else 0
      {
        if curToken.tokenType == EofToken {
          err := None;
          return;
        }
        if !IsLiteralToken(curToken) {
          err := Report(curToken.span, "Invalid query. Unexpected node of type " + TypeBadVerb(curToken.tokenType));
          return;
        }
        q, err := ParseQueryStatement(q, colorAsWritten);
        if err.Some? {
          return;
        }
        moved := true;
      }
    }
  }

  /** Exactly one empty slot of `q` is filled in `q'`, and the others are kept. */
  predicate Fills(q: CompiledQuery, q': CompiledQuery) {
    || (q.filter.None? && q'.filter.Some? && q'.order == q.order && q'.color == q.color)
    || (q.order.None? && q'.order.Some? && q'.filter == q.filter && q'.color == q.color)
    || (q.color.None? && q'.color.Some? && q'.filter == q.filter && q'.order == q.order)
  }

  /** NewParser: a lexer over the query and its first token; an unterminated string there is
      reported with the lexer's own message. */
  method NewParser(query: string, parseTime: string -> Option<int>) returns (p: Parser?, err: Option<string>)
    ensures err.None? <==> LexAt(query, 0).Lexed?
    ensures err.Some? ==> p == null && err.value == UnterminatedMessage(query, LexAt(query, 0).span)
    ensures err.None? ==> (p != null && fresh(p) && fresh(p.lexer) && p.Valid() && p.query == query
      && p.parseTime == parseTime && p.stack == [] && p.curToken == LexAt(query, 0).token)
  {
    var l := new Lexer(query);
    var r := l.NextToken();
    LexSpans(query, 0);
    if r.Unterminated? {
      return null, Some(UnterminatedMessage(query, r.span));
    }
    p := new Parser(query, l, r.token, parseTime);
    err := None;
  }
}
