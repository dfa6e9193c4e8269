# git-ticket core, modelled in Dafny

git-ticket is a ticket tracker that keeps its tickets inside a git repository. A ticket is a
list of operations (create, comment, edit, label change, status, assignee, CCB approval,
review); replaying them builds a snapshot of the ticket. Workflows fix which status may follow
which, labels and checklists come from configuration stored under `refs/configs/`, reviews are
attached from Phabricator or Gitea, and a repository cache keeps excerpts of every ticket and
identity so that queries can filter, order and colour tickets without reading git.

This project models that core and proves properties of the model:

- the query language: the byte-level lexer with spans, the recursive-descent parser with its
  positioned errors, the legacy `qualifier:value` parser, the rendering of the syntax tree, and
  the evaluator that decides whether a ticket excerpt matches a filter;
- the ticket domain: statuses and their names, the built-in workflows, the snapshot queries,
  every operation's `Apply`, `Validate` and constructor helper, labels and their colours, and
  checklists with their compound state;
- configuration: the label tree (flattening, deprecation, insertion of a new label), CCB
  membership, and the config store with the sync of remote config refs, over an in-memory git;
- review aggregation for Phabricator revisions and Gitea pull requests: timelines, summaries,
  the latest status per reviewer, the overall verdict and incremental merging;
- the repository caches: unique-match resolution, LRU eviction that never drops a ticket with
  uncommitted operations, query filtering and ordering, saved searches, cache refresh, pull,
  ticket creation checks, and the older single-file cache with its config merge;
- the in-memory git store used by the tests (blobs, trees, commits, refs, parent walks and
  common-ancestor search);
- presentation logic: the terminal ticket table's paging and cursor, the web board's status
  columns, colour keys and colour assignment, the template helpers, the cross-reference rules,
  the browser-side link decorator (`ddlnXref`), and the `show` and `user` command helpers.

Code that updates state in place is modelled by classes whose methods change their fields and
say what the new state is; loops are `while` loops with invariants, each proved against a
specification function; pure code is modelled by functions and lemmas. Computations that live
outside the core (time parsing and formatting, hashing, regular expressions, JSON, Unicode
normalisation, terminal colours, text sanitising, identity matching, reads of git and of the
network) are parameters of the operations that use them.

Where the description of the link decorator and its code differ, the model follows the code:
the decorator's comment calls the split pattern "the longest one of the matching patterns", but
a JavaScript alternation takes the first alternative that matches (`DdlnXref.SplitMatchIsFirst`);
and a segment is linked by the first rule found anywhere inside it, not by the first rule that
matches the whole segment (see the last row of Findings).

Error values are modelled as `Result`/`Option` datatypes; where the error text is built from
the inputs it is stated exactly, and placeholder texts stand for errors whose text comes from
code outside the model.

## Model

| member | source | states |
|---|---|---|
| DdlnXref.RunEnd | web/assets/ddln-xref.js:9-12 | a greedy run of `p` characters from `i` stops at the end of the text or at the first character failing `p`, and every character it covers satisfies `p` |
| DdlnXref.LastBoundary | web/assets/ddln-xref.js:9-11 | the backtracking point of a greedy run followed by `\b`: the largest position in the range where a word boundary holds, or none when no position has one |
| DdlnXref.Destination | web/assets/ddln-xref.js:9-12 | the handlers: a link is its own target; every other rule's target ends with the matched text |
| DdlnXref.PhabricatorEnd | web/assets/ddln-xref.js:9 | a match of `[TD](?:\d+)\b` ends after its start and inside the text |
| DdlnXref.TicketHashEnd | web/assets/ddln-xref.js:10 | a match of `[A-Fa-f0-9]{7,64}\b` ends after its start and inside the text |
| DdlnXref.GiteaRepoEnd | web/assets/ddln-xref.js:11 | a match of the repository-name pattern (`exp-` or `prod-` then `[A-Za-z0-9-]+\b`) ends after its start and inside the text |
| DdlnXref.UrlEnd | web/assets/ddln-xref.js:12 | a match of `http(?:s)?:\/\/\S+` ends after its start and inside the text |
| DdlnXref.MatchAt | web/assets/ddln-xref.js:8-13 | every pattern opens with `\b` and a word character: a match starts at a word character not preceded by one and ends inside the text |
| DdlnXref.RuleIndex | web/assets/ddln-xref.js:8-13 | each rule has its place in the declaration order of `PATTERNS` |
| DdlnXref.FirstMatch | web/assets/ddln-xref.js:16 | the alternation reports one of the listed rules together with where that rule's own match ends |
| DdlnXref.FirstMatchNone | web/assets/ddln-xref.js:16 | the alternation fails at a position exactly when every listed rule fails there |
| DdlnXref.SplitMatchAt | web/assets/ddln-xref.js:16 | a match of `SPLIT_PATTERN` at a position is a match of one rule there |
| DdlnXref.SplitMatchCases | web/assets/ddln-xref.js:16 | the alternation spelled out: each rule is tried only where every rule declared before it fails |
| DdlnXref.SplitMatchIsFirst | web/assets/ddln-xref.js:15-16 | the rule reported is the first in declaration order that matches there (not the longest match, whatever the comment at line 15 says) |
| DdlnXref.SplitMatchNone | web/assets/ddln-xref.js:16 | the split pattern finds nothing at a position exactly when no rule matches there |
| DdlnXref.Concat | web/assets/ddln-xref.js:30 | `join('')` of no strings is the empty string |
| DdlnXref.ConcatAppend | web/assets/ddln-xref.js:30 | joining distributes over concatenation of the lists |
| DdlnXref.SplitFrom | web/assets/ddln-xref.js:6-30 | `split` with one capturing group gives an odd number of segments (literal, token, …, literal) whose join is the rest of the text |
| DdlnXref.Split | web/assets/ddln-xref.js:30 | the split of the whole text has an odd number of segments and joining them gives the text back |
| DdlnXref.SplitFromShape | web/assets/ddln-xref.js:30 | the segments alternate literal and token from any position where no match has started yet |
| DdlnXref.SplitAlternates | web/assets/ddln-xref.js:6-30 | every token is a whole match of the split pattern at its place and no match starts inside a literal |
| DdlnXref.Search | web/assets/ddln-xref.js:20-21 | `String.prototype.match` without `g`: the leftmost match of a rule at or after a position, nothing before it, or no match anywhere |
| DdlnXref.ReplaceWith | web/assets/ddln-xref.js:18-25 | `replaceSingle` never changes the text a piece shows |
| DdlnXref.ReplaceWithLiteral | web/assets/ddln-xref.js:18-25 | a segment stays text exactly when no rule matches anywhere in it |
| DdlnXref.ReplaceSingle | web/assets/ddln-xref.js:18-25 | the loop over `PATTERNS` returns at the first pattern found: the same piece as the specification function, showing the same text |
| DdlnXref.MapPieces | web/assets/ddln-xref.js:30 | `map` keeps the number and order of the segments and classifies each one |
| DdlnXref.LinkCount | web/assets/ddln-xref.js:31 | the new HTML creates at most one child element per segment |
| DdlnXref.TextOfMapPieces | web/assets/ddln-xref.js:30 | when classifying never changes a segment's text, the pieces show the joined segments |
| DdlnXref.DecorateKeepsText | web/assets/ddln-xref.js:29-32 | stripping the links from the decorated text gives back the original text exactly |
| DdlnXref.PlainTextUnchanged | web/assets/ddln-xref.js:18-30 | a text in which no rule matches anywhere becomes one literal and is rendered unchanged |
| DdlnXref.FirstRuleWins | web/assets/ddln-xref.js:9-20 | "D1234567" matches both the Phabricator and the ticket-hash pattern; the first declared rule decides the link |
| DdlnXref.NoMatchInsideWord | web/assets/ddln-xref.js:9-12 | no pattern starts at a character that is not a word character or that follows one |
| DdlnXref.NoMatchAtPlainWord | web/assets/ddln-xref.js:9-12 | no pattern starts at a word that begins with no letter any rule opens with |
| DdlnXref.NoMatchAtShortWord | web/assets/ddln-xref.js:9-12 | no pattern starts at a short word of letters other than `T` and `D` |
| DdlnXref.QuietSegment | web/assets/ddln-xref.js:18-25 | a literal made only of quiet characters (outside words or starting words no rule accepts) stays text |
| DdlnXref.NoPhabricator | web/assets/ddln-xref.js:9 | a text containing neither `T` nor `D` holds no Phabricator name |
| DdlnXref.PhabricatorT100 | web/assets/ddln-xref.js:9 | "T100" on its own is one Phabricator name covering the whole text |
| DdlnXref.ExampleSplit | web/assets/ddln-xref.js:30 | "see T100 and also abcdef0123456 please" splits into its three literals and two tokens, in order |
| DdlnXref.TicketHashLinked | web/assets/ddln-xref.js:10-25 | a segment of 7 to 64 hexadecimal digits without `D` is linked to `/ticket/` followed by the segment |
| DdlnXref.SecondRuleLinks | web/assets/ddln-xref.js:18-25 | a segment with no Phabricator name is linked by its first ticket hash, replaced in place |
| DdlnXref.ExampleDecorated | web/assets/ddln-xref.js:29-32 | the example keeps its literals and links "T100" and "abcdef0123456", each to its own rule's target, in order |
| DdlnXref.WholeInPieceMatchesInText | web/assets/ddln-xref.js:16-20 | a rule that matches all of a delimited piece on its own also matches the text at the piece's start |
| DdlnXref.MatchInTextWholeInPiece | web/assets/ddln-xref.js:16-20 | a rule's match in the text that no word character follows matches the piece on its own from start to end |
| DdlnXref.WholeSegmentLink | web/assets/ddln-xref.js:18-25 | the corrected classification (first rule matching the whole segment, target computed from the whole segment) keeps the segment's text |
| DdlnXref.PiecesFor | web/assets/ddln-xref.js:29-32 | as written or corrected, the pieces show exactly the original text |
| DdlnXref.CorrectedLinksToken | web/assets/ddln-xref.js:16-30 | corrected: every token the split finds (no word character directly after it) is linked to the target its own rule gives for the whole token |
| DdlnXref.EarlierRulesMissPiece | web/assets/ddln-xref.js:16-20 | the rule the split reports for a token is also the first rule matching the token on its own |
| DdlnXref.WholeSegmentLinkFirst | web/assets/ddln-xref.js:19-21 | the first rule matching the whole segment links it |
| DdlnXref.SingleTokenSplit | web/assets/ddln-xref.js:30 | a text that is one token splits into that token between two empty literals |
| DdlnXref.CorrectedSingleToken | web/assets/ddln-xref.js:18-30 | corrected: a text that is one token becomes one link around the whole text, to its own rule's target |
| DdlnXref.UrlWithIdAsWritten | web/assets/ddln-xref.js:12-21 | as written: "https://x.io/T1" is split as one link token, but `replaceSingle` rewrites the "T1" inside it into a Phabricator address |
| DdlnXref.UrlWithIdCorrected | web/assets/ddln-xref.js:12-21 | corrected: the same link is sent to itself |
| DdlnXref.Element.constructor | web/assets/ddln-xref.js:27-28 | a text element starts with its text as its HTML and no child elements |
| DdlnXref.Element.Rewrite | web/assets/ddln-xref.js:30-31 | `$(this).html(...)`: the HTML becomes the rendered pieces, the child elements the links, and the text and classes stay |
| DdlnXref.Element.Visit | web/assets/ddln-xref.js:29-32 | an element of the class with no child elements is rewritten; any other element is left exactly as it was |
| DdlnXref.DecorateElements | web/assets/ddln-xref.js:5-32 | `ddlnXref` over the page's elements: each one ends as `Visit` leaves it, decided by its own state before the pass |
| QueryLexer.SkipFrom | query/lexer.go:152-155 | skipping stops at the first position that is not whitespace, and everything skipped is whitespace |
| QueryLexer.IdentEnd | query/lexer.go:101-105 | an identifier runs to the first whitespace, reserved character, quote or end of input, and every character it covers is none of these |
| QueryLexer.QuoteFrom | query/lexer.go:129 | the closing quote found is the first double quote from the position on; none is found only when there is none |
| QueryLexer.Lexer.constructor | query/lexer.go:47-49 | a new lexer starts at the first byte of the query |
| QueryLexer.Lexer.Advance | query/lexer.go:147-150 | the position moves one byte on and the byte there is returned, NUL past the end |
| QueryLexer.Lexer.SkipWhitespace | query/lexer.go:152-155 | the position moves to SkipFrom of the old one |
| QueryLexer.Lexer.ParseIdentToken | query/lexer.go:101-117 | the token is the identifier from the old position to IdentEnd, with that span, and the position moves past it |
| QueryLexer.Lexer.FindQuote | query/lexer.go:129 | the scan finds what QuoteFrom states |
| QueryLexer.Lexer.NextToken | query/lexer.go:52-71 | the token or error and the new position are those of LexAt at the old position |
| QueryLexer.LexProgress | query/lexer.go:52-145 | every token moves the position forward |
| QueryLexer.LexSkipsWhitespace | query/lexer.go:53 | a token starts at the first non-whitespace byte; a query with only whitespace left gives the end token |
| QueryLexer.LexSpans | query/lexer.go:52-145 | a token's span starts at or after the position and ends where the lexer stops, within the query except for the end token |
| QueryLexer.LexPastEnd | query/lexer.go:73-86 | past the end the lexer gives the end token, a NUL covering one byte |
| QueryLexer.LexIdent | query/lexer.go:101-117 | an identifier's text is exactly the bytes its span covers, all identifier characters, followed by one that is not |
| QueryLexer.LexString | query/lexer.go:128-145 | a string token's span runs from its opening to its closing double quote and its text is what lies between, with no double quote inside |
| QueryLexer.LexUnterminated | query/lexer.go:128-132 | an unterminated string error spans from the opening double quote to the end of the query, which holds no other double quote |
| QueryLexer.LexSimple | query/lexer.go:56-64 | a parenthesis or comma is a one-byte token of its own type |
| QueryLexer.SplitQuery | query/lexer.go:199-242 | the loop over the query's characters gives SplitQuerySpec |
| QueryLexer.SplitFoldInv | query/lexer.go:220-231 | each step keeps every field non-empty, and in a query without quotes keeps the fields free of spaces and never enters a quote |
| QueryLexer.SplitQueryFields | query/lexer.go:199-242 | every field of a successful split is non-empty; a query without quotes always splits, into fields without spaces |
| QueryLexer.RemoveQuote | query/lexer.go:248-259 | one pair of matching single or double quotes around a value is dropped, and any other value is kept as is |
| QueryLexer.RemoveQuoteRoundTrip | query/lexer.go:248-259 | quoting a value and removing the quotes gives the value back |
| QueryLexer.TokenizeField | query/lexer.go:178-194 | a field is tokenized only when it has a non-empty qualifier before its first colon and a non-empty value after it, and the token is that qualifier and the unquoted value |
| QueryLexer.TokenizeFieldsMeaning | query/lexer.go:178-196 | the fields are tokenized one token per field in order, and tokenizing fails exactly when some field fails |
| QueryLexer.Tokenize | query/lexer.go:171-197 | splitting then tokenizing gives TokenizeSpec |
| QueryLexer.TokenizeAll | query/lexer.go:177-196 | the loop over the fields gives TokenizeFields |
| QueryParser.ContextMessageInnermostFirst | query/parser.go:97-104 | the context message starts with the error text followed by the innermost (most recently pushed) parse context |
| QueryParser.NewParseError | query/parser.go:97-104 | the error carries the query, the span and the message joined with the context stack, innermost first |
| QueryParser.ErrorTextAsWritten | query/parser.go:82-95 | the highlighted error text exists exactly when the span lies inside the query (otherwise Go's slicing panics) |
| QueryParser.EndOfInputErrorPanics | query/parser.go:82-85 | an error reported on the end-of-input token has a span past the query, so rendering it panics |
| QueryParser.ErrorText | query/parser.go:82-95 | message, then the query with the span wrapped in red underline escapes, so that removing the escapes gives the query back; agrees with the as-written text whenever that exists |
| QueryParser.ErrorTextExample | query/parser.go:82-95 | a misspelt status is rendered with exactly the misspelt word highlighted |
| QueryParser.KeywordOf | query/parser.go:18-47 | the keyword table maps each matcher keyword to a matcher of that same name |
| QueryParser.EveryFilterHasKeyword | query/parser.go:18-47 | every filter kind's keyword is in the parser's table and is neither sort nor color-by |
| QueryParser.MatcherFilter | query/parser.go:368-486 | the filter built for a matcher keyword renders back to that keyword and keeps the span |
| QueryParser.DateFilter | query/parser.go:518-568 | the date filter renders to create-before, create-after, edit-before or edit-after according to its two flags |
| QueryParser.SortOrderOf | query/parser.go:630-681 | a recognised sort name yields a valid key and direction |
| QueryParser.SortNames | query/parser.go:650-677 | exactly the nine sort names are accepted; the bare names default to id ascending, creation and edit descending; every key and direction is reached by its rendered name |
| QueryParser.StatusesOf | query/parser.go:341-356 | a literal is accepted exactly when it is ALL (any case) or a status name; ALL expands to every status; every status produced is valid |
| QueryParser.ScanStatusesMeaning | query/parser.go:341-365 | the status list parses exactly when every literal is a status; otherwise the error names the first bad literal and all before it were good |
| QueryParser.CollectStatuses | query/parser.go:358-365 | the loop over the literal list computes the status scan |
| QueryParser.CollectFilters | query/parser.go:585-595 | succeeds exactly when every node is a filter, returning them in order; otherwise reports the first non-filter |
| QueryParser.Parser.constructor | query/parser.go:106-120 | a parser over the query with an empty context stack and the given first token |
| QueryParser.Parser.Report | query/parser.go:97-104 | the error is built from the parser's query and its current context stack |
| QueryParser.Parser.Advance | query/parser.go:122-133 | moves to the token the lexer yields next; an unterminated string leaves the current token and reports the lexer's message at the current token |
| QueryParser.Parser.Expect | query/parser.go:135-141 | a token of another type is reported as "Expected token of type" without moving; otherwise advances |
| QueryParser.Parser.ParseDelimitedLiteral | query/parser.go:302-323 | a parenthesised single literal; the span runs from the parenthesis past the literal |
| QueryParser.Parser.ParseDelimitedLiteralList | query/parser.go:259-300 | a parenthesised comma list of literals; each lies strictly inside the span and they are in order without overlap |
| QueryParser.Parser.ParseLiteralItems | query/parser.go:272-299 | the items of a literal list are literals, inside the list and in order without overlap |
| QueryParser.Parser.ParseDelimitedExpressionList | query/parser.go:221-257 | a parenthesised comma list of expressions; each node lies strictly inside the span, in order; the context stack is restored |
| QueryParser.Parser.ParseExpressionItems | query/parser.go:234-256 | the items of an expression list lie inside the list and in order without overlap |
| QueryParser.Parser.ParseExpression | query/parser.go:206-219 | a non-literal token is reported; an unknown word becomes a literal node; a keyword yields a node of that keyword's kind spanning from the keyword |
| QueryParser.Parser.ParseKeyword | query/parser.go:18-47 | dispatches on the keyword; as written, color-by yields an empty colouring without consuming anything |
| QueryParser.Parser.ParseArguments | query/parser.go:325-697 | the keyword's own parser yields a node of the keyword's kind spanning from the keyword to the current token |
| QueryParser.Parser.ParseStatus | query/parser.go:325-366 | a status filter spanning from the keyword whose statuses are all valid |
| QueryParser.Parser.ParseMatcher | query/parser.go:368-486 | a filter of the keyword's own kind spanning from the keyword |
| QueryParser.Parser.ParseNot | query/parser.go:488-516 | a negation filter spanning from the keyword |
| QueryParser.Parser.ParseDate | query/parser.go:518-568 | a date filter whose date is the parsed literal and whose flags are the keyword's |
| QueryParser.Parser.ParseAllAny | query/parser.go:570-628 | a conjunction for all and a disjunction for any, spanning from the keyword |
| QueryParser.Parser.ParseSortOrder | query/parser.go:630-681 | an ordering node whose key and direction come from a recognised sort name |
| QueryParser.Parser.ParseColor | query/parser.go:683-697 | the intended colouring: a parenthesised colour filter spanning from the keyword |
| QueryParser.Parser.ParseQueryStatement | query/parser.go:163-204 | an unknown keyword is reported; on success exactly one empty slot of the query is filled; a repeated slot is an error; as written color-by never advances |
| QueryParser.Parser.Parse | query/parser.go:143-161 | an empty query compiles to nothing; a non-literal token is reported; success ends at end of input; as written no colouring ever survives |
| QueryParser.NewParser | query/parser.go:106-120 | fails exactly when the first token is an unterminated string, with the lexer's message; otherwise a fresh parser positioned at the first token |
| QueryAst.MatcherString | query/ast.go:311-313 | a literal is written between double quotes, its text unchanged |
| QueryAst.MatchOnlyLiteral | query/ast.go:319-321 | a literal matcher accepts its own text and no other |
| QueryAst.Keyword | query/ast.go:44-276 | each filter kind is written under a non-empty keyword without spaces or parentheses |
| QueryAst.StatusNames | query/ast.go:51-54 | one status name per status, in order |
| QueryAst.FilterStringAsWritten | query/ast.go:50-276 | the text of a filter starts with its keyword and a parenthesis, except a title filter, which starts with "label(" |
| QueryAst.Render | query/ast.go:50-276 | every filter node is written as its keyword (or the title head) and a parenthesised argument list, ending with a closing parenthesis |
| QueryAst.TitleRendersAsLabel | query/ast.go:178-180 | as written, a title filter and a label filter on the same literal have the same text although their kinds differ |
| QueryAst.FilterString | query/ast.go:50-276 | with the title keyword corrected, the text of every filter starts with its own keyword and a parenthesis and ends with a closing one |
| QueryAst.FilterStringTellsKind | query/ast.go:50-276 | filters of different kinds always have different texts |
| QueryAst.NotString | query/ast.go:193-195 | a negation is written "not(" around the inner filter |
| QueryAst.AllString | query/ast.go:246-252 | an all-filter is its inner filters' texts joined by ", " inside "all(" |
| QueryAst.AnyString | query/ast.go:265-271 | an any-filter is its inner filters' texts joined by ", " inside "any(" |
| QueryAst.StatusString | query/ast.go:50-56 | a status filter is its status names joined by ", " inside "status(" |
| QueryAst.OrderStringTellsOrder | query/ast.go:285-287 | two ordering nodes have the same text exactly when key and direction agree |
| QueryAst.OrderString | query/ast.go:285-287 | an ordering node is written "order-by(...)" |
| QueryAst.ColorString | query/ast.go:299-301 | a coloring node is written "color-by(...)" around its filter's text, and "color-by(<nil>)" when it has none, as `%v` prints a nil filter |
| QueryModel.CompiledStringSlots | query/query.go:29-45 | an empty query is two spaces; a color node's text takes the ordering slot, hiding the ordering node; the last slot is always empty |
| QueryModel.CompiledString | query/query.go:29-45 | the text always ends with the empty third slot after a space, and starts with a space when there is no filter |
| QueryModel.Query.constructor | query/query.go:48-53 | a new query has no filters and orders by creation time, descending |
| QueryLegacy.QualifierNames | query/parser.go:730-809 | every known qualifier's name is recognised as that qualifier; "state" is an alias of "status" |
| QueryLegacy.AppendValue | query/parser.go:741-756 | a list qualifier appends its value to that list only; every other part of the query is unchanged |
| QueryLegacy.SetTime | query/parser.go:764-787 | a time qualifier sets that bound only; every other part of the query is unchanged |
| QueryLegacy.ColoringOf | query/parser.go:859-883 | a recognised coloring names one of the four coloring kinds |
| QueryLegacy.ColoringRoundTrip | query/parser.go:859-883 | rendering a coloring kind with its argument and parsing it back gives the same kind and argument |
| QueryLegacy.ColoringNamed | query/parser.go:859-883 | every accepted coloring value is the rendering of what it parses to |
| QueryLegacy.StepLists | query/parser.go:741-756 | one token appends its value to a list exactly when its qualifier names that list |
| QueryLegacy.FoldLists | query/parser.go:729-811 | after a successful parse each list holds exactly the values of its qualifier, in query order |
| QueryLegacy.StepTimes | query/parser.go:764-787 | one token sets a time bound exactly when its qualifier names that bound |
| QueryLegacy.FoldTimes | query/parser.go:729-811 | after a successful parse each time bound is the last one given for it |
| QueryLegacy.StepSorting | query/parser.go:788-796 | a sort token is accepted only before any other and sets the order it names |
| QueryLegacy.FoldSorting | query/parser.go:723-811 | a successful parse has at most one sort; with none the order is creation descending, with one it is the one named |
| QueryLegacy.StepColoring | query/parser.go:797-805 | a color-by token is accepted only before any other and sets the coloring it names |
| QueryLegacy.FoldColoring | query/parser.go:723-811 | a successful parse has at most one coloring; with none there is no coloring, with one it is the one named |
| QueryLegacy.StepStatuses | query/parser.go:731-740 | a token keeps every selected status valid |
| QueryLegacy.FoldStatuses | query/parser.go:729-811 | every status a successful parse selects is valid |
| QueryLegacy.FoldKnown | query/parser.go:807-808 | a successful parse contains no unknown qualifier |
| QueryLegacy.AllReplaces | query/parser.go:731-735 | status ALL (any case) replaces the status list by all statuses, whatever came before |
| QueryLegacy.FirstErrorWins | query/parser.go:729-811 | once a prefix of the tokens fails, the whole parse fails with that same error |
| QueryLegacy.ParseSorting | query/parser.go:814-845 | an unknown sorting is reported as "unknown sorting" and leaves the order; a known one sets key and direction as the sort table says |
| QueryLegacy.ParseColoring | query/parser.go:859-883 | an unknown coloring is reported as "unknown coloring" and leaves the query; a known one sets its kind and argument |
| QueryLegacy.ApplyStatus | query/parser.go:731-740 | updates the status list as the status step says and reports the same error |
| QueryLegacy.ApplyList | query/parser.go:741-756 | the query's new state is the old one with the value appended to that list |
| QueryLegacy.ApplyTime | query/parser.go:764-787 | an unparsable time is reported as "unrecognized time format"; otherwise only that bound is set |
| QueryLegacy.ApplyToken | query/parser.go:730-809 | applying one token to the query agrees with the step function, error text included |
| QueryLegacy.LegacyParse | query/parser.go:716-812 | succeeds exactly when the specification fold over the tokens succeeds, returning a fresh query in that state, or that fold's error |
| CacheFilter.MatcherSeesLowerCase | cache/filter.go:65-76 | an identity's Match always receives the literal in lower case, so literals differing only in case match the same identities |
| CacheFilter.MatchId | cache/filter.go:56-63 | matching a user fails exactly when the id does not resolve, and otherwise is the identity's match of the literal |
| CacheFilter.Users | cache/filter.go:104-108 | the CCB entries' users, one per entry, in order |
| CacheFilter.DateHolds | cache/filter.go:193-199 | a "before" bound holds for a strictly earlier time; as written an "after" bound never holds, as intended it holds for a strictly later time |
| CacheFilter.AnyIdMeaning | cache/filter.go:103-152 | once every id resolves, scanning the ids is true exactly when some id's identity matches |
| CacheFilter.PendingScanMeaning | cache/filter.go:121-132 | once every member resolves, the ccb-pending scan is true exactly when some matching member's entry is still pending towards a next status |
| CacheFilter.CcbUsersMeaning | cache/filter.go:103-111 | matching the CCB members' ids is matching some CCB entry's user |
| CacheFilter.ExecuteMeaning | cache/filter.go:20-54 | when every id resolves and the ticket has an author, evaluating a filter tree succeeds and gives exactly the filter's meaning, so early returns and order do not change the answer |
| CacheFilter.PlainFilterMeaning | cache/filter.go:78-199 | status, label, title and date filters always evaluate to their meaning |
| CacheFilter.IdFilterMeaning | cache/filter.go:87-152 | the author, assignee, CCB, ccb-pending, actor and participant filters evaluate to their meaning once every id resolves |
| CacheFilter.ExecuteAllMeaning | cache/filter.go:201-208 | all(...) evaluates to whether every inner filter holds |
| CacheFilter.ExecuteAnyMeaning | cache/filter.go:210-217 | any(...) evaluates to whether some inner filter holds |
| CacheFilter.NotNegates | cache/filter.go:189-191 | not(f) holds exactly when f does not, and shares f's error |
| CacheFilter.EmptyAllAny | cache/filter.go:201-217 | all() with no inner filter holds and any() with none does not |
| CacheFilter.AllOrderTrue | cache/filter.go:201-208 | all(...) is true exactly when every inner filter evaluates to true |
| CacheFilter.Evaluated | cache/filter.go:201-217 | the inner filters' results, one per filter, in order |
| CacheFilter.ExecuteDecisive | cache/filter.go:201-217 | all(...) and any(...) are one early-return scan over the inner results, stopping at false and at true respectively |
| CacheFilter.DecisiveOrder | cache/filter.go:201-217 | the scan gives its stopping value exactly when that value occurs after only results of the other value, and the other value exactly when every result has it |
| CacheFilter.AllOrderFalse | cache/filter.go:201-208 | all(...) is false exactly when some inner filter is false and every filter before it is true |
| CacheFilter.AnyOrder | cache/filter.go:210-217 | any(...) is true exactly when some inner filter is true after only false ones, and false exactly when all are false |
| CacheFilter.StatusMembership | cache/filter.go:78-85 | status(...) holds exactly when the ticket's status is listed |
| CacheFilter.UnassignedNeverMatches | cache/filter.go:94-101 | an unassigned ticket never matches an assignee filter, whatever the lookups do |
| CacheFilter.AuthorlessFails | cache/filter.go:87-92 | a ticket without an author stops an author filter, whatever the lookups do |
| CacheFilter.CcbPendingMeaning | cache/filter.go:113-134 | ccb-pending never holds for a ticket without a workflow label; otherwise it holds exactly when a matching member's entry is for a next status of the ticket and not approved |
| CacheFilter.LabelExact | cache/filter.go:154-174 | a literal label filter needs a label equal to the literal, case included |
| CacheFilter.TitleIgnoresCase | cache/filter.go:176-187 | a literal title filter compares the whole title with the literal, ignoring the case of both |
| CacheFilter.AfterNeverMatchesAsWritten | cache/filter.go:193-199 | as written, a creation-date or edit-date filter with an "after" bound never holds, whatever the ticket's times |
| CacheFilter.DateFiltersCompare | cache/filter.go:193-199 | with the intended rule a date filter holds exactly when the ticket's time is strictly on the bound's side, and a "before" bound behaves as written |
| Status.ActiveStatuses | bug/status.go:27-29 | the active statuses are the four from in-progress to accepted, in order |
| Status.AllStatuses | bug/status.go:30-32 | every valid status appears, once, in ascending order, and nothing else does |
| Status.StatusString | bug/status.go:34-57 | an invalid value is named "unknown status" and only an invalid one is; every name is lower-case and not padded with white space |
| Status.Action | bug/status.go:59-82 | an invalid value gives "unknown status" and only an invalid one does; a valid status's action starts with "set " |
| Status.StatusByName | bug/status.go:87-107 | a name that is found is the name of the valid status returned |
| Status.StatusFromString | bug/status.go:84-109 | the input is trimmed and lower-cased; success gives the valid status of that name, failure the "unknown status: " error quoting the cleaned text |
| Status.Validate | bug/status.go:111-117 | accepts exactly the values from the first to the last status; otherwise fails with "invalid" |
| Status.StatusFromStringAccepts | bug/status.go:84-109 | any input whose trimmed, lower-cased form is a status's name parses to that status, whatever its case or padding |
| Status.NameLookup | bug/status.go:87-107 | the lookup finds every valid status by its own name |
| Status.StatusRoundTrip | bug/status.go:34-109 | every valid status survives a round trip through its name |
| Status.StatusStringInjective | bug/status.go:34-57 | the names are distinct: the name determines the valid status |
| Workflows.FindIndex | bug/workflow.go:25-32 | the index of the first stored workflow with the name, none before it has the name, and none at all when the result is none |
| Workflows.FindWorkflow | bug/workflow.go:25-32 | the loop returns a stored workflow of that name, and nothing exactly when no stored workflow has it |
| Workflows.WorkflowOfLabels | bug/workflow.go:25-32 | looking up a ticket's labels finds the stored workflow named by the first label, in list order, that names one (no earlier label names one), and nothing only when no label names one |
| Workflows.GetWorkflowLabels | bug/workflow.go:35-41 | the names of the stored workflows, one per workflow, in store order |
| Workflows.NextStatusesOf | bug/workflow.go:45-53 | a status is listed exactly when some transition leads to it from the given status |
| Workflows.NextStatuses | bug/workflow.go:45-53 | the loop collects exactly the specification's next statuses, in transition order |
| Workflows.FirstTransition | bug/workflow.go:57-58 | the first transition from `from` to `to`, none before it matches, and none matches when the result is none |
| Workflows.ValidateTransition | bug/workflow.go:56-73 | the first matching transition decides (its hook's outcome, or success without one); no match is the "invalid transition" error listing the next statuses |
| Workflows.TransitionOutcome | bug/workflow.go:56-73 | a transition the workflow does not list is the "invalid transition" error naming the possible next statuses; any other failure is the outcome of the hook of a listed transition |
| Workflows.ValidateIffListed | bug/workflow.go:56-73 | without hooks, a transition is accepted exactly when the workflow lists it |
| Workflows.BuiltinsHaveNoHooks | bug/workflow.go:75-99 | the built-in workflows declare no hook commands |
| Workflows.QaTransitions | bug/workflow.go:91-97 | the QA workflow accepts exactly proposed to in-progress and in-progress to done |
| Workflows.EngMergedIsFinal | bug/workflow.go:78-90 | in the engineering workflow nothing leaves the merged status |
| Workflows.StoreLabelsDistinct | bug/workflow.go:75-99 | each built-in workflow is the one found by its own label |
| Workflows.LabelOrderDecides | cache/filter.go:114 | a ticket labelled `workflow:qa` then `workflow:eng` follows the QA workflow, and in the other order the engineering one: the first workflow label in the ticket's list decides |
| Snapshots.CcbStateString | bug/ccb.go:35-48 | a state has a name other than "UNKNOWN" exactly when it is one of the four named states |
| Snapshots.NewCommentItem | bug/timeline.go:32-41 | the timeline item carries the comment's author, message, files and creation time under the given id and index |
| Snapshots.WithIdentityUnique | bug/snapshot.go:76-95 | adding an actor or participant keeps the list free of repeated ids, keeps every earlier entry, and afterwards the id is present and no other new id is |
| Snapshots.LabelStateValues | bug/snapshot.go:173-202 | a checklist label's compound state is TBD, Passed or Failed, and TBD when nobody has reviewed it |
| Snapshots.ReviewersState | bug/snapshot.go:183-199 | walking the reviewers' copies in any order gives Failed if one failed, else Passed if one passed, else TBD |
| Snapshots.Snapshot.EditTime | bug/snapshot.go:42-48 | the edit time is the epoch without operations and otherwise the last operation's time |
| Snapshots.Snapshot.SearchComment | bug/snapshot.go:56-64 | the result is the first comment with the id, and "comment item not found" exactly when no comment has it |
| Snapshots.Snapshot.GetComment | bug/snapshot.go:67-73 | an index below the number of comments gives that comment, any other gives "comment item not found" |
| Snapshots.Snapshot.AddActor | bug/snapshot.go:76-84 | the actor is appended only when no actor has its id |
| Snapshots.Snapshot.AddParticipant | bug/snapshot.go:87-95 | the participant is appended only when no participant has its id |
| Snapshots.Snapshot.HasParticipant | bug/snapshot.go:98-105 | true exactly when some participant has the id |
| Snapshots.Snapshot.HasAnyParticipant | bug/snapshot.go:108-115 | true exactly when some argument id is a participant |
| Snapshots.Snapshot.HasActor | bug/snapshot.go:118-125 | true exactly when some actor has the id |
| Snapshots.Snapshot.HasAnyActor | bug/snapshot.go:128-135 | true exactly when some argument id is an actor |
| Snapshots.Snapshot.GetCcbState | bug/snapshot.go:138-145 | the state of the first entry for both the user and the status, Removed when there is none |
| Snapshots.Snapshot.GetChecklistCompoundStates | bug/snapshot.go:173-202 | the map has exactly the ticket's checklist labels, each with its compound state over the reviewers' copies |
| Snapshots.Snapshot.NextStatuses | bug/snapshot.go:205-212 | without a workflow label the answer is an error, otherwise the workflow's next statuses from the current status |
| Snapshots.Snapshot.ValidateTransition | bug/snapshot.go:215-221 | the ticket's workflow decides the transition, and a ticket without a workflow cannot change status |
| Snapshots.WorkflowOutcomeMeaning | bug/snapshot.go:215-221 | with the built-in workflows a status change passes exactly when the ticket has a workflow that lists the transition |
| Snapshots.ValidateAssigneeSet | bug/snapshot.go:224-229 | passes exactly when an assignee is set, else "assignee not set" |
| Snapshots.ValidateCcb | bug/snapshot.go:232-250 | passes exactly when some entry is for the next status and every such entry approved; a missing approval is reported before a missing assignment |
| Snapshots.ValidateChecklistsCompleted | bug/snapshot.go:254-261 | passes exactly when no checklist label of the ticket is TBD |
| Snapshots.Snapshot.constructor | bug/snapshot.go:15-34 | a snapshot with the given id and status and every other field empty |
| Snapshots.Bug.constructor | bug/op_create.go:161-170 | a new ticket holds no operations |
| Snapshots.Bug.Append | bug/op_add_comment.go:146 | appending puts the operation after the ticket's earlier operations, which are kept |
| Ccb.IsCcbMember | config/ccb.go:44-51 | a user is a member exactly when their id is in the configured list; the check never fails |
| Ccb.LoadCcbConfig | config/ccb.go:16-41 | no stored "ccb" configuration gives an empty board; a read failure, a decoding failure and a document without "ccbMembers" give their quoted errors; otherwise the stored member list |
| Ccb.MissingConfigNoMembers | config/ccb.go:16-21 | without a stored configuration nobody is a member |
| Checklists.StateString | config/checklists.go:84-97 | "UNKNOWN" is the name of exactly the invalid states |
| Checklists.ShortString | config/checklists.go:99-112 | "UNKNOWN" exactly for invalid states; a valid state's short name is a prefix of its full name |
| Checklists.StateNamesInjective | config/checklists.go:84-112 | distinct valid states have distinct names and distinct short names |
| Checklists.Validate | config/checklists.go:129-135 | accepts exactly TBD to NotApplicable; otherwise fails with "invalid" |
| Checklists.CountQuestionsPositive | config/checklists.go:143-149 | a section's count for a state is positive exactly when one of its questions has that state |
| Checklists.CountSectionsPositive | config/checklists.go:142-151 | the count over all sections is positive exactly when some question of some section has that state |
| Checklists.CompoundState | config/checklists.go:140-162 | the nested counting loops give the compound state: Failed if any answer failed, else TBD if any is open, else Passed |
| Checklists.AllAnsweredIsPassed | config/checklists.go:152-161 | a checklist with no questions, or only Passed and NotApplicable answers, is Passed |
| Checklists.GetChecklist | config/checklists.go:61-69 | the stored template when the label is configured; otherwise the "invalid checklist" error |
| Checklists.GetChecklistLabels | config/checklists.go:72-82 | the labels of exactly the configured checklists that are not deprecated, one per entry |
| Checklists.LoadChecklistConfig | config/checklists.go:41-58 | no stored "checklists" configuration gives an empty store; read and decoding failures give their quoted errors; otherwise the decoded store |
| ChecklistAnswers.StateFromString | bug/checklists.go:16-30 | the trimmed, lower-cased input is accepted when it abbreviates a state's name (the first such state in TBD, Passed, Failed, NA order); otherwise "unknown state", and then it abbreviates none |
| ChecklistAnswers.FromCleaned | bug/checklists.go:19-29 | the prefix tests in order: the first state whose name starts with the cleaned text, or the error when none does |
| ChecklistAnswers.BlankIsTbd | bug/checklists.go:17-20 | empty or blank input is read as TBD |
| ChecklistAnswers.SingleLetters | bug/checklists.go:16-27 | the letters t, p, f and n, in either case, select TBD, Passed, Failed and NA |
| ChecklistAnswers.LongInputRejected | bug/checklists.go:16-30 | input longer than every name, such as "passedx", is refused |
| ChecklistAnswers.UnknownInitialRejected | bug/checklists.go:16-30 | input starting with a letter no name starts with is refused |
| ChecklistAnswers.NameSelectsItself | bug/checklists.go:19-27 | each lower-case name is read as its own state, not an earlier one |
| ChecklistAnswers.NamesRoundTrip | bug/checklists.go:16-30 | the names ChecklistState.String prints read back as the same state |
| ChecklistAnswers.ShortNamesRoundTrip | bug/checklists.go:16-30 | the short names read back as the same state |
| BugLabel.Color | bug/label.go:25-56 | the colour is the palette entry indexed by the digest's byte sum modulo the nineteen palette entries, the running remainder kept by the loop |
| BugLabel.ColorIgnoresByteOrder | bug/label.go:24-56 | a label's colour is one of the palette's and depends only on the bytes of its digest, not their order: permuted digests give the same colour |
| BugLabel.Term256 | bug/label.go:82-88 | every label colour maps into the 6x6x6 cube of the 256-colour terminal palette, codes 16 to 231 |
| BugLabel.Term256Injective | bug/label.go:82-88 | two colours share a terminal code exactly when each channel falls in the same sixth of its range |
| BugLabel.Validate | bug/label.go:58-74 | a label passes exactly when it is not empty, is one line and is printable; emptiness is reported first, then a line break |
| BugLabel.ChecklistNotWorkflow | bug/label.go:106-112 | no label is both a checklist label and a workflow label |
| BugLabel.Labels | bug/label.go:142-156 | expanding a node yields its flattened labels, in tree order |
| BugLabel.AppendWrapped | bug/label.go:145-154 | each inner label is appended with the compound's prefix and, when the compound is deprecated, its deprecation and message |
| BugLabel.CompoundPrefixes | bug/label.go:151 | every label below a compound node carries the compound's prefix and a colon |
| BugLabel.DeprecationInherited | bug/label.go:147-150 | a deprecated compound marks every label below it deprecated, with the compound's message |
| BugLabel.ParseConfiguredLabels | bug/label.go:250-274 | the configured map is built from the flattened labels in order, stopping at the first duplicate |
| BugLabel.InsertEach | bug/label.go:259-268 | the labels of one node are added in order, refusing the first name already present |
| BugLabel.InsertAllOk | bug/label.go:259-268 | building the map succeeds exactly when the flattened names are distinct and none is already present |
| BugLabel.InsertAllContents | bug/label.go:264-267 | on success the map holds exactly the old keys and every flattened name, each with its own deprecation and message |
| BugLabel.InsertAllConcat | bug/label.go:257-269 | building from two runs of labels is building from the first and then from the second, stopping at the first failure |
| BugLabel.GetLabelConfigAsWrittenInverted | bug/label.go:310-313 | as written, a configured label gets no configuration and an unknown one gets a zero configuration |
| BugLabel.GetLabelConfigAsWritten | bug/label.go:310-313 | as written, a zero configuration is returned exactly for labels that are not configured, so it always disagrees with the intended lookup |
| BugLabel.ConfigOf | bug/label.go:304-315 | as intended, a label has a configuration exactly when it is configured, and it is the configured one |
| BugLabel.ConfiguredLabels.GetLabelConfig | bug/label.go:304-315 | the labels are read once, a failed read caches nothing and returns its error, and the answer is the corrected lookup (the label's configuration exactly when it is configured), not the inverted lookup of lines 310-313 shown by BugLabel.GetLabelConfigAsWritten |
| BugLabel.ConfiguredLabels.ListLabels | bug/label.go:316-324 | the labels are read once, a failed read caches nothing and returns its error, and the answer is the cached map |
| BugLabel.ConfiguredLabels.constructor | bug/label.go:248 | the configured labels start unread |
| OpAddComment.NewComment | bug/op_add_comment.go:41-48 | the new comment carries the operation's id, author, message, files and time and is not edited |
| OpAddComment.Apply | bug/op_add_comment.go:37-57 | the author joins the actors and participants, the comment is appended, and one timeline item pointing at it is appended |
| OpAddComment.ItemPointsAtComment | bug/op_add_comment.go:50-54 | the appended timeline item's index is the new comment's position, and that comment has the item's id and message |
| OpAddComment.Validate | bug/op_add_comment.go:63-73 | valid exactly when the common checks pass and the message is printable; the first failure is the one reported |
| OpAddComment.AddCommentWithFiles | bug/op_add_comment.go:141-148 | a valid operation is appended to the ticket and returned; an invalid one returns its error and leaves the ticket alone |
| OpCreate.FirstComment | bug/op_create.go:44-49 | the first comment carries the operation's id, author, message and time, with no files and not edited |
| OpCreate.Apply | bug/op_create.go:38-60 | the author joins the actors and participants and becomes the ticket's author; title and creation time are the operation's; the comments and the timeline become just the first comment and its item |
| OpCreate.Validate | bug/op_create.go:66-88 | valid exactly when the common checks pass and the title is non-empty, one line and printable and the message printable; each failure has its own message, checked in that order |
| OpCreate.CreateWithFiles | bug/op_create.go:162-173 | the create operation is always returned; a ticket holding just it exists exactly when it is valid |
| OpEditComment.FindComment | bug/op_edit_comment.go:52-60 | the index found is the first comment with the target id; none is found only when no comment has it |
| OpEditComment.EditedComments | bug/op_edit_comment.go:52-60 | only the first comment with the target id changes, taking the new message and files and marked edited with its author and time kept; without one nothing changes |
| OpEditComment.Apply | bug/op_edit_comment.go:38-70 | the author joins the actors, the comments are edited as EditedComments says, and one timeline item is appended with the edited comment's index, 0 when there was none |
| OpEditComment.Validate | bug/op_edit_comment.go:76-90 | valid exactly when the common checks pass, the target id is valid and the message printable; a bad target is reported as "target hash is invalid" with its reason |
| OpEditComment.EditCommentWithFiles | bug/op_edit_comment.go:161-168 | a valid operation is appended to the ticket and returned; an invalid one returns its error and leaves the ticket alone |
| OpEditComment.EditCreateComment | bug/op_edit_comment.go:171-174 | the edit targets the ticket's create operation with no files, and is appended exactly when valid |
| OpLabelChange.LabelExist | bug/op_label_change.go:332-340 | true exactly when the label is in the list |
| OpLabelChange.SwapRemove | bug/op_label_change.go:57-62 | moving the last label into the removed one's place and dropping the last removes exactly that label, keeps the others each once, and leaves the labels before it in place |
| OpLabelChange.SortedSetUnique | bug/op_label_change.go:65-68 | two ascending lists without repeats holding the same labels are equal, so the sorted labels do not depend on the order of the work before the sort |
| OpLabelChange.Apply | bug/op_label_change.go:39-79 | afterwards the ticket's labels are the old ones plus the added minus the removed, each once, ascending; the author joins the actors and one timeline item records the change |
| OpLabelChange.LabelsOutcome | bug/op_label_change.go:86-96 | a list of labels passes exactly when each label is valid |
| OpLabelChange.ValidOutcome | bug/op_label_change.go:81-103 | the operation is valid exactly when the common checks pass, every added and removed label is valid and at least one label changes; a failing common check is reported as is |
| OpLabelChange.Validate | bug/op_label_change.go:81-103 | the checks run in order and give ValidOutcome |
| OpLabelChange.ValidateLabels | bug/op_label_change.go:86-96 | the loop stops at the first invalid label and gives LabelsOutcome |
| OpLabelChange.WorkflowLabels | bug/op_label_change.go:214-218 | the labels queued are exactly the ticket's workflow labels |
| OpLabelChange.QueueWorkflowLabels | bug/op_label_change.go:214-218 | the ticket's workflow labels are appended, in order, to the labels to remove |
| OpLabelChange.AddStepFacts | bug/op_label_change.go:192-245 | each label to add gets exactly one verdict naming it: a repeat in the request, already set, or accepted only when new, configured and not deprecated unless allowed; an accepted workflow label sets the new workflow and queues the current workflow labels for removal |
| OpLabelChange.RemoveStepFacts | bug/op_label_change.go:247-279 | each label to remove gets exactly one verdict naming it: a repeat, not on the ticket, or removed only when on the ticket; a workflow label only when the workflow changes, a checklist label only by a CCB member or while the ticket is proposed |
| OpLabelChange.AddAllFacts | bug/op_label_change.go:192-245 | the labels accepted are distinct, all requested and none already on the ticket, and there is one verdict per requested label in order |
| OpLabelChange.RemoveAllFacts | bug/op_label_change.go:247-279 | the labels removed are distinct and all on the ticket, and there is one verdict per label to remove |
| OpLabelChange.PlanFacts | bug/op_label_change.go:185-279 | the plan adds only new requested labels and removes only labels the ticket carries, each once, with one verdict per requested label followed by one per label to remove |
| OpLabelChange.AddOne | bug/op_label_change.go:193-244 | one pass of the add loop does what AddStep states |
| OpLabelChange.RemoveOne | bug/op_label_change.go:248-278 | one pass of the remove loop does what RemoveStep states |
| OpLabelChange.MakePlan | bug/op_label_change.go:186-279 | both loops together give PlanOf |
| OpLabelChange.AddEach | bug/op_label_change.go:192-245 | the add loop gives AddAll |
| OpLabelChange.RemoveEach | bug/op_label_change.go:247-279 | the remove loop gives RemoveAll |
| OpLabelChange.ChangeLabels | bug/op_label_change.go:185-303 | nothing to change is "no label added or removed" with the verdicts; an invalid operation returns its error; otherwise the label change is appended, followed when the workflow changes by a status change to the new workflow's initial state, whose failure is returned after the label change was already appended |
| OpLabelChange.ForceChangeLabels | bug/op_label_change.go:310-330 | the labels are taken as given; the operation is appended exactly when it is valid |
| OpSetAssignee.Apply | bug/op_set_assignee.go:31-43 | the assignee becomes the operation's, the author joins the actors, and one timeline item records it |
| OpSetAssignee.SetAssignee | bug/op_set_assignee.go:122-130 | the operation is appended exactly when the common checks pass, and returned |
| OpSetCcb.LastIndexOfUser | bug/op_set_ccb.go:33-40 | the index found is the last entry of the user in the CCB list; none is found only when the user has no entry |
| OpSetCcb.FindUser | bug/op_set_ccb.go:33-40 | the scan reports the user as on the board exactly when LastIndexOfUser finds an entry, at that index |
| OpSetCcb.Apply | bug/op_set_ccb.go:31-84 | a change that does nothing leaves the list, the actors and the timeline alone; otherwise the list becomes CcbApplied's, the author joins the actors and one timeline item records it |
| OpSetCcb.AppliedOnePerUser | bug/op_set_ccb.go:43-72 | a list with one entry per user keeps one entry per user |
| OpSetCcb.AppliedMeaning | bug/op_set_ccb.go:43-72 | adding does nothing exactly when the user is on the board, and otherwise appends the entry; removing, approving and blocking do nothing exactly when the user is not on it; removing drops exactly that user's entry; approving or blocking changes only that user's state |
| OpSetCcb.ReplayOnePerUser | bug/op_set_ccb.go:31-84 | any sequence of CCB changes keeps one entry per user |
| OpSetCcb.NewSetCcbOp | bug/op_set_ccb.go:135-140 | the operation names the user and the state, with no status |
| OpSetCcb.SetCcb | bug/op_set_ccb.go:179-187 | the operation is appended exactly when the common checks pass, and returned |
| OpSetReview.HistoryItemsMeaning | bug/op_set_review.go:51-57 | every item added belongs to the operation and the review, and every change of every history event is added as an item with the event's author and time |
| OpSetReview.AsTimeline | bug/op_set_review.go:35-47 | one item per change of the event, in order, with the event's author and time |
| OpSetReview.Events | bug/op_set_review.go:53 | the history of a Gitea review: one event per review, in order |
| OpSetReview.AddToTimeline | bug/op_set_review.go:51-62 | the timeline becomes the old items plus the review's items, ordered by time: sorted and with exactly those items |
| OpSetReview.CollectItems | bug/op_set_review.go:53-57 | the loops collect HistoryItems |
| OpSetReview.PrunedMeaning | bug/op_set_review.go:65-75 | an item is kept exactly when it was there and does not belong to the review |
| OpSetReview.PrunedKeepsSorted | bug/op_set_review.go:65-75 | pruning a timeline ordered by time leaves it ordered |
| OpSetReview.RemoveFromTimeline | bug/op_set_review.go:65-75 | the timeline becomes Pruned of the old one |
| OpSetReview.Store | bug/op_set_review.go:85-93 | a review not yet stored is stored as given; a stored Gitea review is merged with the update in place, taking its identity and its reviews |
| OpSetReview.Apply | bug/op_set_review.go:77-99 | a removal deletes the review and its timeline items; otherwise the review is stored or merged and its items added in time order; the author joins the actors either way |
| OpSetReview.SetReview | bug/op_set_review.go:196-205 | the operation is appended exactly when the common checks pass, and returned |
| OpSetStatus.Apply | bug/op_set_status.go:32-44 | the status becomes the operation's, the author joins the actors and one timeline item records it |
| OpSetStatus.Validate | bug/op_set_status.go:46-56 | valid exactly when the common checks pass and the status is a valid one; an invalid status is "status: invalid" |
| OpSetStatus.AppendValid | bug/op_set_status.go:124-128 | the operation is appended exactly when valid |
| OpSetStatus.Open | bug/op_set_status.go:121-129 | a change to proposed, appended exactly when valid |
| OpSetStatus.Close | bug/op_set_status.go:132-140 | a change to merged, appended exactly when valid |
| OpSetStatus.SetStatus | bug/op_set_status.go:143-155 | the operation is checked, then the ticket's workflow must allow the transition (running its hook); it is appended exactly when both pass, and the first failure is returned |
| ConfigLabel.WrapAll | config/label.go:167-175 | every label below a prefix gets the prefix and a colon in front of its name, and the prefix's deprecation message when it has one |
| ConfigLabel.CompoundNames | config/label.go:165-178 | the names a prefix node expands to are exactly its children's names with the prefix in front |
| ConfigLabel.DeprecationOverrides | config/label.go:170-173 | under a deprecated prefix every label carries the prefix's message and a name starting with the prefix |
| ConfigLabel.ScanLevel | config/label.go:80-95 | the scan of one level finds a prefix node of that name, or reports that no label and no prefix there has it |
| ConfigLabel.InsertNames | config/label.go:73-126 | inserting a colon-separated label adds exactly its full name to the names of the tree when it succeeds, and no name when it fails |
| ConfigLabel.InsertAllOk | config/label.go:39-51 | flattening into the map succeeds exactly when no label name repeats and none is already there, the duplicated-rule error otherwise |
| ConfigLabel.InsertAllContents | config/label.go:39-51 | the map then holds the old keys unchanged plus every label name, each with its own deprecation message |
| ConfigLabel.ParseLabelConfig | config/label.go:32-58 | the flat map of a label tree is its flattened labels inserted one by one into an empty map |
| ConfigLabel.LabelConfig.constructor | config/label.go:54-57 | a label configuration keeps the tree and the flat map built from it |
| ConfigLabel.LabelConfig.GetLabelConfig | config/label.go:63-68 | a configured label gives its configuration; any other is "Label ... does not exist" |
| ConfigLabel.LabelConfig.AppendLabelToConfiguration | config/label.go:73-126 | the tree becomes the insertion of the label's colon-separated parts; on success the flat map gains the label with no deprecation and the tree's names gain exactly the label; a clash with an allocated name changes nothing |
| ConfigStore.ListConfigs | config/config.go:27-39 | the names listed are exactly those with a ref under refs/configs/, each once |
| ConfigStore.ConfigEntry | config/config.go:134-146 | the entry found is a blob named config.json from the tree; none is found only when the tree has no such blob |
| ConfigStore.ConfigData | config/config.go:134-149 | a missing or unreadable blob is an ordinary error, never the not-found error |
| ConfigStore.ReadConfigData | config/config.go:134-149 | the scan of the tree returns the data of the first config.json blob, or the error ConfigData names |
| ConfigStore.GetConfig | config/config.go:117-150 | the data read is what the store holds under the name, and the not-found error is returned exactly when the configuration's ref does not exist |
| ConfigStore.SetConfig | config/config.go:42-106 | the blob and the one-entry tree are stored; a new name gets a root commit and its ref; an unchanged tree changes no commit or ref; otherwise a commit with the old one as parent is stored and the ref moved; afterwards the configuration reads back as the data written |
| ConfigStore.SyncOne | config/config.go:165-235 | one remote configuration ref is handled as Decide says: an error changes no ref and reports nothing, anything else moves the refs as Synced says and reports as Report says |
| ConfigStore.UpdateConfigs | config/config.go:155-239 | every fetched ref under the remote's configuration prefix is handled once, and the refs, the report and the first error are those of SyncAll in that order |
| ConfigStore.LocalRefInjective | config/config.go:166-167 | two different remote refs under the prefix stand for two different local configuration refs |
| ConfigStore.SyncAllEffect | config/config.go:155-239 | the sync fails exactly when some remote ref's decision fails; refs that are neither conflict backups nor a synced local ref are untouched; on success every local configuration ref points where its decision says: new and fast-forwarded refs and diverged ones to the remote commit, the others where they were |
| PhabReviews.Filter | bug/review/phabricator.go:175-193 | the updates of one timeline group all carry that group's timestamp |
| PhabReviews.FilterEmpty | bug/review/phabricator.go:175-193 | a timestamp has no updates exactly when no update carries it |
| PhabReviews.GroupsOfSpec | bug/review/phabricator.go:171-193 | there is a group exactly for each timestamp some update carries, holding that timestamp's updates in order, with the first one's author |
| PhabReviews.NoUpdatesNoGroups | bug/review/phabricator.go:206-208 | a revision has no update exactly when it has no timeline group |
| PhabReviews.EventsCoverUpdates | bug/review/phabricator.go:171-203 | every history event is the group of its timestamp, and a timestamp has an event exactly when some update carries it |
| PhabReviews.HistoryHoldsEveryUpdate | bug/review/phabricator.go:171-203 | the history's events together hold exactly as many changes as the revision has updates |
| PhabReviews.SortedGroupsStrict | bug/review/phabricator.go:195-202 | sorting the distinct groups newest first keeps exactly those groups, with strictly decreasing timestamps |
| PhabReviews.GroupSummary | bug/review/phabricator.go:99-121 | the loop builds the status and diff tags followed by the comment count text |
| PhabReviews.SummaryEmpty | bug/review/phabricator.go:99-121 | a group's summary is empty exactly when it holds no user status, diff or comment |
| PhabReviews.TagsEmpty | bug/review/phabricator.go:103-111 | the tags are empty exactly when the group holds no user status and no diff |
| PhabReviews.NoComments | bug/review/phabricator.go:103-118 | the comment count is zero exactly when the group holds no comment |
| PhabReviews.UpdateSummary | bug/review/phabricator.go:126-140 | only a comment has a summary; it starts with its text on one padded line and, when inline, ends with "@" and the diff number |
| PhabReviews.GroupList | bug/review/phabricator.go:195-198 | lists every group of the map exactly once |
| PhabReviews.PhabReviewInfo.constructor | bug/review/phabricator.go:142-148 | a revision record with the given id, title, last transaction and updates |
| PhabReviews.PhabReviewInfo.IsEmpty | bug/review/phabricator.go:206-208 | empty exactly when the revision forms no timeline group |
| PhabReviews.PhabReviewInfo.History | bug/review/phabricator.go:171-203 | one event per timestamp group, newest first |
| PhabReviews.PhabReviewInfo.Merge | bug/review/phabricator.go:242-253 | a nil update changes nothing; otherwise id, title and last transaction are the update's and its updates are appended |
| PhabReviews.PhabReviewInfo.LatestOverallStatus | bug/review/phabricator.go:256-270 | the status of the first newest status transaction after time zero, green when accepted |
| PhabReviews.PhabReviewInfo.LatestUserStatuses | bug/review/phabricator.go:274-289 | each Phabricator user maps to their newest user-status transaction |
| PhabReviews.OverallStatusIsNewest | bug/review/phabricator.go:256-270 | an overall status exists exactly when some status transaction is after time zero, and it is the first newest one |
| PhabReviews.UserStatusIsNewest | bug/review/phabricator.go:274-289 | a user has an entry exactly when they set a user status, and it is their first newest one |
| GiteaReviews.ReviewStatus | bug/review/gitea.go:108-114 | a stale review's status is marked STALE[...]; every status ends with " @ " and the reviewed commit |
| GiteaReviews.ReviewSummaryEmpty | bug/review/gitea.go:127-146 | the summary is empty exactly for a plain comment review with neither body nor inline comments |
| GiteaReviews.EventsOf | bug/review/gitea.go:175-187 | the history holds every review, in order, followed by every commit, in order |
| GiteaReviews.MergeEvents | bug/review/gitea.go:252-264 | the history after a merge holds exactly the events of both sides, none lost and none duplicated |
| GiteaReviews.GiteaInfo.constructor | bug/review/gitea.go:149-157 | a pull request record with the given metadata, reviews and commits |
| GiteaReviews.GiteaInfo.IsEmpty | bug/review/gitea.go:190-192 | empty exactly when the history has no event |
| GiteaReviews.GiteaInfo.History | bug/review/gitea.go:175-187 | the loops build the history: reviews, then commits |
| GiteaReviews.GiteaInfo.Merge | bug/review/gitea.go:252-264 | a nil update changes nothing; otherwise the metadata is the update's and its reviews and commits are appended |
| GiteaReviews.GiteaInfo.LatestUserStatuses | bug/review/gitea.go:299-310 | each reviewer e-mail maps to that reviewer's newest review, an equal timestamp keeping the earlier one |
| GiteaReviews.GiteaInfo.LatestOverallStatus | bug/review/gitea.go:267-295 | approved in green when some newest non-stale review approves and none requests changes; the request-changes verdict in red when one does; pending otherwise |
| GiteaReviews.MergeKeepsLatest | bug/review/gitea.go:252-310 | after a merge every reviewer still has a newest review, never older than before |
| PullReview.GiteaInfo.constructor | commands/review/gitea.go:62-69 | a pull request record with the given metadata and reviews |
| PullReview.GiteaInfo.IsEmpty | commands/review/gitea.go:89-91 | this older record is never empty |
| PullReview.GiteaInfo.History | commands/review/gitea.go:79-87 | one timeline event per review, in order, whose changes are that review's comments |
| PullReview.GiteaInfo.Merge | commands/review/gitea.go:118-129 | a nil update changes nothing; otherwise every field, the reviews included, is replaced by the update's |
| PullReview.GiteaInfo.LatestUserStatuses | commands/review/gitea.go:161-172 | each reviewer e-mail maps to that reviewer's newest review |
| PullReview.GiteaInfo.LatestOverallStatus | commands/review/gitea.go:131-159 | the verdict over each reviewer's newest review, coloured as the terminal shows it |
| PullReview.IdParts | commands/review/gitea.go:71-73 | the id "owner/repo/pulls/N" splits back into owner, repository, "pulls" and the number |
| PullReview.PullId | commands/review/gitea.go:71-73 | a removal marker's id is the id of the review it removes; a Gitea pull request's id splits back into owner, repository, "pulls" and the number |
| PullReview.SplitPullPath | commands/review/gitea.go:71-73 | splitting a pull path at '/' gives its four segments when none of them holds a '/' |
| PullReview.LatestReviewIsNewest | commands/review/gitea.go:161-172 | a reviewer has an entry exactly when they reviewed, and it is their first newest review |
| CacheCommon.SearchName | cache/repo_cache_common.go:397-399 | a key under the search prefix names the search it ends with, and any other key names itself |
| CacheCommon.Listing | cache/repo_cache_common.go:394 | reading the git configuration under a prefix gives exactly its keys with that prefix and their values |
| CacheCommon.OverlayAppend | cache/repo_cache_common.go:397-400 | one more listed key is written over the searches after those listed before it |
| CacheCommon.OverlayMeaning | cache/repo_cache_common.go:393-400 | writing a listing over the searches keeps every stored search and adds each listed one, a listed value winning, whatever order the listing is visited in |
| CacheCommon.SearchLayers | cache/repo_cache_common.go:373-413 | the searches are the stored ones, then the user's git configuration, then the repository's, each later layer winning for its own names |
| CacheCommon.ExcerptOf | cache/repo_cache_common.go:110 | an identity's excerpt copies its id, name, login, Phabricator id and Gitea id |
| CacheCommon.RefreshBugsMeaning | cache/repo_cache_common.go:151-197 | a refresh leaves tickets not in the repository's list untouched, caches every listed ticket, reports only listed tickets after those already reported, and every reported edit-time change goes from an earlier time to a later one |
| CacheCommon.ReloadIdentitiesMeaning | cache/repo_cache_common.go:199-212 | reloading succeeds exactly when every identity read succeeds, and then every identity read has an excerpt and no other excerpt changed |
| CacheCommon.RefreshedMap | cache/repo_cache_common.go:160-195 | the excerpts as the ticket loop leaves them, also when a peek or read fails: only listed tickets change |
| CacheCommon.RefreshedMapOnSuccess | cache/repo_cache_common.go:160-195 | when the refresh succeeds, the map it stops with is the refreshed map it returns |
| CacheCommon.ReloadedMap | cache/repo_cache_common.go:201-209 | the identity excerpts as the loop leaves them: the reloaded map on success, and in every case an identity no successful read names keeps its excerpt, or its absence |
| CacheCommon.Fetch | cache/repo_cache_common.go:70-87 | fetching succeeds exactly when identities, tickets and configurations all fetch, with the three outputs joined in that order; an identity failure returns its own output |
| CacheCommon.MergeFailure | cache/repo_cache_common.go:263-269 | a merge result stops the pull exactly when it carries an error or is invalid |
| CacheCommon.Consumed | cache/repo_cache_common.go:262-274 | the pull reads every merge result before the first failing one, and stops at that one |
| CacheCommon.ApplyMerge | cache/repo_cache_common.go:97-129 | a new or updated entity without an error replaces its excerpt, in the bug or identity map by its kind; any other result changes nothing |
| CacheCommon.ApplyMergesAppend | cache/repo_cache_common.go:96-129 | one more merge result is applied on top of those before it |
| CacheCommon.ReportedAppend | cache/repo_cache_common.go:271-273 | one more merge result that changed something adds its short id to the pull's report, and one that changed nothing adds nothing |
| CacheCommon.ApplyMergesFrame | cache/repo_cache_common.go:96-129 | an id that no successful new or updated merge names keeps its excerpts, or their absence, in both maps |
| LoadedBugs.Without | cache/repo_cache_bug.go:549 | removing a ticket from the loaded order keeps every other ticket and drops that one, and a ticket not loaded leaves the order as it was |
| LoadedBugs.WithoutDistinct | cache/repo_cache_bug.go:174 | removing a loaded ticket keeps the order free of repeats and shortens it by one |
| LoadedBugs.WithoutAt | cache/repo_cache_bug.go:174 | removing a ticket that occurs once leaves the tickets before and after it in order |
| LoadedBugs.Touch | cache/repo_cache_bug.go:135 | looking up a loaded ticket keeps the same tickets and makes it the newest |
| LoadedBugs.Add | cache/repo_cache_bug.go:150 | adding a ticket keeps the loaded ones and makes it the newest |
| LoadedBugs.TouchAddDistinct | cache/repo_cache_bug.go:131-156 | lookup and add keep the order free of repeats; a lookup keeps its length and an add grows it only for a new ticket |
| LoadedBugs.EvictOldest | cache/repo_cache_bug.go:167-180 | eviction never grows the loaded order |
| LoadedBugs.Unpinned | cache/repo_cache_bug.go:169 | the number of loaded tickets with nothing to commit is at most the number loaded |
| LoadedBugs.NoneUnpinned | cache/repo_cache_bug.go:169-171 | when no loaded ticket is evictable, every loaded ticket has changes to commit |
| LoadedBugs.EvictOldestSpec | cache/repo_cache_bug.go:160-181 | eviction keeps the order free of repeats, keeps every ticket with changes to commit, removes as many as it must or all it can, removes oldest first, and having removed all it can leaves only tickets with changes |
| LoadedBugs.EvictOldestStep | cache/repo_cache_bug.go:167-180 | one step of the eviction walk: the oldest ticket is kept if it has changes, else evicted and counted |
| LoadedBugs.EvictOldestAppend | cache/repo_cache_bug.go:167-180 | evicting from two runs of tickets is evicting from the first and then, with what is still to remove, from the second |
| CacheResolve.IdsOf | cache/repo_cache_bug.go:296-300 | the ids listed are, position by position, the ids of the entries under the visited keys |
| CacheResolve.ResolveMatcher | cache/repo_cache_bug.go:224-246 | the lookup finds exactly when one entry matches and returns its id, finds nothing exactly when none matches, and otherwise lists every matching id once |
| CacheResolve.AllIds | cache/repo_cache_bug.go:305-318 | every entry's id once, one per entry, in the visiting order |
| CacheResolve.AllValues | cache/repo_cache_identity.go:249-256 | every entry once, one per key, in the visiting order |
| NewBugChecks.ImpactCheck | cache/repo_cache_bug.go:425-432 | the impact labels pass exactly when each is an impact label that is configured, and are then kept in order; otherwise the error names the first that fails |
| NewBugChecks.ChecklistCheck | cache/repo_cache_bug.go:434-445 | the checklist labels pass exactly when each is a checklist label with a template, and are then kept in order; otherwise the error is the first failing label's |
| NewBugChecks.LabelCheck | cache/repo_cache_bug.go:407-445 | the labels pass exactly when the workflow is known, the repository label is set, a repository label and configured, and the impact and checklist labels pass; the result is workflow, repository, impact, checklists in that order |
| NewBugChecks.WorkflowRule | cache/repo_cache_bug.go:407-411 | options that pass always name a stored workflow |
| NewBugChecks.ChecklistsAreNotWorkflows | cache/repo_cache_bug.go:434-439 | a checklist label that passes is never taken for a workflow label |
| CacheQuery.Verdict | cache/repo_cache_bug.go:260 | a query without a filter keeps every ticket |
| CacheQuery.Select | cache/repo_cache_bug.go:257-263 | the kept excerpts are at most the visited ones and each is the excerpt of a visited id; without a filter every visited excerpt is kept, in visiting order |
| CacheQuery.SelectMeaning | cache/repo_cache_bug.go:257-263 | when the filter evaluates on every ticket, an excerpt is kept exactly when it is visited and the filter holds for it |
| CacheQuery.SelectAppend | cache/repo_cache_bug.go:259-263 | visiting one more ticket appends its excerpt when the filter holds, keeps the selection when it does not, and fails with the filter's error |
| CacheQuery.IdsOf | cache/repo_cache_bug.go:296-300 | the result lists the ids of the ordered excerpts, position by position |
| CacheQuery.Reversed | cache/repo_cache_bug.go:288 | a descending order is the ascending one read backwards |
| CacheQuery.ReversedMultiset | cache/repo_cache_bug.go:288 | reading backwards keeps the same ids |
| CacheQuery.Ordered | cache/repo_cache_bug.go:265-300 | ordering fails exactly for an unknown order or direction, and otherwise returns one id per kept excerpt |
| CacheQuery.OrderedPermutes | cache/repo_cache_bug.go:265-300 | the returned ids are exactly the kept excerpts' ids |
| CacheQuery.OrderedById | cache/repo_cache_bug.go:273-275 | ordered by id, the ids ascend or descend in byte order as the direction says |
| CacheQuery.OrderedByTime | cache/repo_cache_bug.go:276-279 | ordered by creation or edit time, the ids are those of a time-sorted permutation of the excerpts, reversed for a descending direction |
| CacheQuery.IdsSortBy | cache/repo_cache_bug.go:294 | sorting excerpts by a time keeps the same ids |
| IdentityLookups.IdentityResolution | cache/repo_cache_identity.go:123-145 | a cached identity is returned as is; any other is what reading it from the repository gives |
| IdentityLookups.AfterResolve | cache/repo_cache_identity.go:131-142 | a successful read is added to the cache and every identity already cached stays as it was |
| IdentityLookups.ResolutionStable | cache/repo_cache_identity.go:123-145 | resolving one identity only grows the cache by successful reads and changes the resolution of no identity |
| IdentityLookups.ResolutionKept | cache/repo_cache_identity.go:123-145 | a cache grown only by successful reads resolves every id as before |
| IdentityLookups.GrewByTransitive | cache/repo_cache_identity.go:138-140 | growing the cache by successful reads twice is growing it by successful reads |
| IdentityLookups.Wrap | cache/repo_cache_identity.go:293 | a wrapped error starts with the wrapping message and a colon |
| IdentityLookups.GetPhabId | cache/repo_cache_identity.go:366-386 | an e-mail without '@' is the slice-bounds failure; a found id is the first result of searching the e-mail's local part |
| IdentityLookups.PhabUserIsLocalPart | cache/repo_cache_identity.go:367-368 | the searched user is the part of the e-mail before its first '@' and holds no '@' |
| IdentityLookups.GetGiteaId | cache/repo_cache_identity.go:405-429 | the lookup succeeds exactly when the search finds one user, whose id it returns; none and several are told apart by their messages |
| IdentityLookups.PhabIdFor | cache/repo_cache_identity.go:288-296 | a skipped Phabricator lookup gives the empty id; otherwise the lookup's id, or its error wrapped as a failure to retrieve the Phabricator id |
| IdentityLookups.GiteaIdFor | cache/repo_cache_identity.go:298-306 | a skipped Gitea lookup gives -1; otherwise the lookup's answer |
| IdentityLookups.Updated | cache/repo_cache_identity.go:326-333 | an update replaces name, e-mail and both service ids and keeps the id and login |
| IdentityLookups.PhabSkipIgnoredAsWritten | cache/repo_cache_identity.go:352-364 | as written, asking to skip only the Phabricator lookup still performs it, so a failing Phabricator client fails the update |
| IdentityLookups.PhabSkipHonoured | cache/repo_cache_identity.go:352-364 | corrected, the Phabricator lookup happens exactly when the caller did not skip it, whatever the Gitea flag |
| RepoCaches.Loaded | cache/repo_cache_bug.go:143-147 | a ticket just read from the repository is loaded under its id with its excerpt and nothing to commit |
| CacheExcerpts.HumanId | cache/repo_cache_common.go:266-270 | an id's short form is its first seven characters, or the whole id when it is shorter, and is a prefix of the id |
| RepoCaches.EvictionMeaning | cache/repo_cache_bug.go:160-181 | eviction keeps the usage order free of repeats, changes nothing within the limit, never drops a ticket with changes to commit, drops oldest first, and either meets the limit or leaves only tickets with changes |
| RepoCaches.BugResolution | cache/repo_cache_bug.go:131-156 | a loaded ticket is returned as is; any other is read from the repository and, when the read succeeds, loaded with nothing to commit |
| RepoCaches.FreshStaysLoaded | cache/repo_cache_bug.go:148-154 | a ticket just read stays loaded exactly when the limit allows one more ticket or enough older tickets without changes can be dropped to make room |
| RepoCaches.RepoCache.constructor | cache/repo_cache_test.go:339-347 | a new cache with a limit of loaded tickets has no excerpts, no loaded ticket, an empty usage order, no identity and no user identity |
| RepoCaches.RepoCache.BugUpdated | cache/repo_cache_bug.go:31-50 | a ticket that is not loaded is refused with "bug missing from cache" and nothing changes; otherwise it becomes the most recently used and its excerpt is refreshed from it |
| RepoCaches.RepoCache.LoadBugCache | cache/repo_cache_bug.go:53-80 | the decoded excerpts replace the ticket excerpts exactly when the file's version is 2; any other version is refused with its number and changes nothing |
| RepoCaches.RepoCache.ResolveBugExcerpt | cache/repo_cache_bug.go:118-128 | the excerpt stored under exactly this id, or ErrBugNotExist when there is none |
| RepoCaches.RepoCache.EvictIfNeeded | cache/repo_cache_bug.go:160-181 | the usage order becomes the eviction of the old order, and exactly the tickets that left it are unloaded; the excerpts and identities do not change |
| RepoCaches.RepoCache.Evict | cache/repo_cache_bug.go:167-180 | the walk over the usage order yields the eviction's order and unloads exactly the tickets it dropped |
| RepoCaches.RepoCache.DropStep | cache/repo_cache_bug.go:174-175 | dropping a ticket from both the usage order and the loaded tickets keeps the two in step |
| RepoCaches.RepoCache.EvictWalk | cache/repo_cache_bug.go:167-176 | while over the limit, a ticket with changes to commit is skipped and any other is removed from the usage order |
| RepoCaches.RepoCache.EvictDone | cache/repo_cache_bug.go:177-179 | once the limit is met the walk stops and the rest of the usage order stays as it is |
| RepoCaches.RepoCache.ResolveBug | cache/repo_cache_bug.go:131-156 | the result is the ticket's resolution with its own id; a loaded ticket becomes the most recently used, a newly read one is added as most recently used and eviction runs |
| RepoCaches.RepoCache.ResolveBugId | cache/repo_cache_bug.go:224-246 | the matcher resolves exactly when one excerpt matches, to that excerpt's id; none is ErrBugNotExist and several is the multiple-match error listing every matching id |
| RepoCaches.RepoCache.ResolveBugExcerptMatcher | cache/repo_cache_bug.go:208-214 | a unique match gives that excerpt; no match or several is an error |
| RepoCaches.RepoCache.ResolveBugMatcher | cache/repo_cache_bug.go:216-222 | a unique match is resolved as ResolveBug does; otherwise an error and the loaded tickets do not change |
| RepoCaches.RepoCache.ResolveBugExcerptPrefix | cache/repo_cache_bug.go:185-189 | the excerpt of the one ticket whose id starts with the prefix, else an error |
| RepoCaches.RepoCache.ResolveBugPrefix | cache/repo_cache_bug.go:193-197 | the one ticket whose id starts with the prefix, resolved as ResolveBug does, else an error with nothing loaded |
| RepoCaches.RepoCache.ResolveBugCreateMetadata | cache/repo_cache_bug.go:202-206 | the one ticket whose create operation carries the value under the key, resolved as ResolveBug does, else an error |
| RepoCaches.RepoCache.AllBugsIds | cache/repo_cache_bug.go:305-318 | one id per ticket excerpt, each once, in visiting order |
| RepoCaches.RepoCache.QueryBugs | cache/repo_cache_bug.go:249-302 | no query gives every id; otherwise the ids of the excerpts the filter keeps, ordered by the query's order, which is set to edit time descending when missing |
| RepoCaches.RepoCache.ValidLabels | cache/repo_cache_bug.go:326-361 | the labels are ascending, each once, and are exactly the configured labels, the workflow labels and the labels of checklists that are not deprecated |
| RepoCaches.RepoCache.Listed | cache/repo_cache_bug.go:352-356 | walking a set lists each element once and nothing else |
| RepoCaches.RepoCache.WorkflowLabels | cache/repo_cache_bug.go:339-341 | the stored workflows' names are exactly the workflow labels |
| RepoCaches.RepoCache.SameElements | cache/repo_cache_bug.go:358 | sorting keeps exactly the same labels |
| RepoCaches.RepoCache.RemoveBug | cache/repo_cache_bug.go:535-553 | a prefix that does not select one ticket changes nothing; otherwise the ticket is resolved as ResolveBug does (touched, or read, added and eviction run); a failed read or removal returns its error and keeps that state, and a successful removal drops exactly that ticket's excerpt, loaded copy and place in the usage order |
| RepoCaches.RepoCache.ResetBug | cache/repo_cache_bug.go:556-582 | a prefix that does not select one ticket changes nothing; otherwise the ticket is resolved as ResolveBug does (touched, or read, added and eviction run); a failed resolution, reset or re-read returns its error and keeps that state, and a success replaces the loaded ticket by the re-read one, refreshes its excerpt and marks it just used, every other loaded ticket kept |
| RepoCaches.RepoCache.IdentityUpdated | cache/repo_cache_identity.go:28-42 | an identity that is not loaded is refused; otherwise its excerpt is refreshed from it and nothing else changes |
| RepoCaches.RepoCache.LoadIdentityCache | cache/repo_cache_identity.go:45-72 | the decoded excerpts replace the identity excerpts exactly when the file's version is 2 |
| RepoCaches.RepoCache.ResolveIdentityExcerpt | cache/repo_cache_identity.go:110-120 | the excerpt stored under exactly this id, or ErrIdentityNotExist |
| RepoCaches.RepoCache.ResolveIdentity | cache/repo_cache_identity.go:123-143 | a loaded identity is returned as is; otherwise it is read and, on success, kept, so a later call finds it loaded |
| RepoCaches.RepoCache.ResolveIdentityId | cache/repo_cache_identity.go:209-231 | the matcher resolves exactly when one excerpt matches; none is ErrIdentityNotExist and several is the multiple-match error listing every matching id |
| RepoCaches.RepoCache.ResolveIdentityExcerptMatcher | cache/repo_cache_identity.go:193-199 | a unique match gives that excerpt; otherwise an error |
| RepoCaches.RepoCache.ResolveIdentityMatcher | cache/repo_cache_identity.go:201-207 | a unique match is resolved as ResolveIdentity does; otherwise an error with nothing loaded |
| RepoCaches.RepoCache.ResolveIdentityExcerptPrefix | cache/repo_cache_identity.go:147-151 | the excerpt of the one identity whose id starts with the prefix, else an error |
| RepoCaches.RepoCache.ResolveIdentityPrefix | cache/repo_cache_identity.go:179-183 | the one identity whose id starts with the prefix, resolved as ResolveIdentity does, else an error |
| RepoCaches.RepoCache.ResolveIdentityPhabID | cache/repo_cache_identity.go:155-163 | the one identity whose Phabricator id is exactly the given one, else an error |
| RepoCaches.RepoCache.ResolveIdentityGiteaID | cache/repo_cache_identity.go:167-175 | the one identity whose Gitea id is exactly the given one, else an error |
| RepoCaches.RepoCache.AllIdentityIds | cache/repo_cache_identity.go:234-247 | one id per identity excerpt, each once, in visiting order |
| RepoCaches.RepoCache.AllIdentityExcerpts | cache/repo_cache_identity.go:249-256 | every identity excerpt once, in visiting order |
| RepoCaches.RepoCache.FinishIdentity | cache/repo_cache_identity.go:431-457 | a failed commit is returned; an id already loaded is refused; otherwise the identity is loaded and its excerpt written, and on any error nothing changes |
| RepoCaches.RepoCache.NewIdentityWithKeyRaw | cache/repo_cache_identity.go:286-310 | the Phabricator lookup fails first, then the Gitea lookup wrapped; on success the new identity carries both ids and is loaded with its excerpt |
| RepoCaches.RepoCache.UpdateIdentityWithGiteaId | cache/repo_cache_identity.go:313-349 | the update succeeds exactly when the Phabricator lookup and the commit do, and then replaces the loaded identity and its excerpt by the updated one |
| RepoCaches.RepoCache.UpdateIdentity | cache/repo_cache_identity.go:352-364 | a failing Gitea lookup fails the update, then a failing Phabricator lookup with its own error; the update succeeds exactly when both lookups and the commit do, replacing the identity and its excerpt, and any failure changes neither; the Phabricator flag is passed on as written or corrected |
| RepoCaches.RepoCache.RefreshCache | cache/repo_cache_common.go:151-215 | tickets outside the repository's list keep their excerpts; the bug refresh and the identity reload are applied in order and the first failure is returned; after a failure each map is as the refresh left it (the tickets and identities refreshed before the failure keep their new excerpts); the refresh results are returned once the cache is written |
| CacheCommon.RefreshExcerpts | cache/repo_cache_common.go:160-195 | the ticket loop gives the refresh's results or its first error, and the excerpts as the loop leaves them, which on success are the refreshed map |
| CacheCommon.ReloadExcerpts | cache/repo_cache_common.go:201-209 | the identity loop gives the first read error or success, and the excerpts as the loop leaves them, which on success are the reloaded map |
| RepoCaches.RepoCache.OverlayListing | cache/repo_cache_common.go:396-399 | writing a git-config listing over the searches, in the order its keys are visited |
| RepoCaches.RepoCache.GetSearches | cache/repo_cache_common.go:373-418 | the stored, the global and the local searches are layered with the later winning; each read or decode failure is reported; the result is an error exactly when some search name holds a space |
| RepoCaches.RepoCache.Pull | cache/repo_cache_common.go:252-282 | a failed fetch returns its error; otherwise merges are applied up to the first failing one, which stops the pull, changed entities are reported, and only a clean merge goes on to update the configurations |
| RepoCaches.RepoCache.SetUserIdentity | cache/repo_cache_common.go:284-301 | the identity becomes the user's exactly when it is recorded and loaded in the cache; an identity not from the cache is refused |
| RepoCaches.RepoCache.GetUserIdentity | cache/repo_cache_common.go:303-324 | a known and loaded user identity is returned; otherwise it is read, and on success loaded and remembered |
| RepoCaches.RepoCache.GetUserIdentityExcerpt | cache/repo_cache_common.go:326-343 | the user's id is read once and remembered; the answer is its excerpt, or a missing-excerpt error naming the id |
| RepoCaches.RepoCache.ResolveCcbMembers | cache/repo_cache_bug.go:449-460 | the members resolve exactly when each resolves to an identity on the board, in order; the first that does not is reported; the cache only grows by successful reads |
| RepoCaches.RepoCache.ValidateNewBugOptions | cache/repo_cache_bug.go:391-467 | a label failure is returned first with nothing loaded; the options pass exactly when the labels pass and every CCB member resolves to a board member, returning the labels in workflow, repository, impact, checklist order and the resolved members per status |
| RepoCaches.RepoCache.ResolveCcb | cache/repo_cache_bug.go:447-461 | every status's members resolve exactly when all are acceptable, keeping the same statuses; otherwise some unacceptable member is reported |
| LegacyRepoCaches.LoadOutcome | cache/repo_cache.go:245-274 | a cache file loads exactly when it is readable and at version 2; another version is the invalid-format error naming it, an unreadable file its read error |
| LegacyRepoCaches.BuildBugsMeaning | cache/repo_cache.go:420-431 | building the ticket excerpts succeeds exactly when every ticket reads, and then holds exactly the ids read |
| LegacyRepoCaches.Kept | cache/repo_cache.go:547-553 | the filtered excerpts are never more than the tickets visited |
| LegacyRepoCaches.KeptMeaning | cache/repo_cache.go:547-553 | an excerpt is kept exactly when the query matches it and it is stored under a visited id |
| LegacyRepoCaches.LegacyOrder | cache/repo_cache.go:557-571 | the sort key is the query's; the direction is descending exactly when the query asks for it, ascending otherwise |
| LegacyRepoCaches.LegacySynced | cache/repo_cache.go:1331-1367 | after a copy or a replacement the local configuration ref points where the remote one does, and no ref is lost |
| LegacyRepoCaches.LegacyMergeStep | cache/repo_cache.go:1325-1381 | the merge of a list is the decision on its first ref: an error stops it, a copy ends it as written, anything else goes on with the rest |
| LegacyRepoCaches.MergeConfigsCoversAll | cache/repo_cache.go:1325-1381 | with the early return removed, a merge without error leaves a local ref for every fetched configuration ref |
| LegacyRepoCaches.MergeConfigsStopsAfterCopy | cache/repo_cache.go:1335-1340 | as written, two new remote configurations leave the second one uncopied with no error reported |
| LegacyRepoCaches.LegacyRepoCache.constructor | cache/repo_cache.go:95-100 | a new cache starts with nothing loaded and no user identity |
| LegacyRepoCaches.LegacyRepoCache.LoadBugCache | cache/repo_cache.go:245-274 | the outcome is LoadOutcome of the file, and the ticket excerpts are replaced only when it loaded |
| LegacyRepoCaches.LegacyRepoCache.LoadIdentityCache | cache/repo_cache.go:277-307 | the outcome is LoadOutcome of the file, and the identity excerpts are replaced only when it loaded |
| LegacyRepoCaches.LegacyRepoCache.BuildCache | cache/repo_cache.go:395-435 | the identities are rebuilt first and their first read error is returned; then the tickets, with theirs; on success both excerpt maps are exactly what was read |
| LegacyRepoCaches.LegacyRepoCache.NewNamedRepoCache | cache/repo_cache.go:94-121 | a lock failure returns an empty cache and the error; an invalid format returns no cache; a failed load rebuilds, and returns the write outcome only when the rebuild succeeds |
| LegacyRepoCaches.LegacyRepoCache.Close | cache/repo_cache.go:184-197 | everything cached is dropped and the outcome is removing the lock file |
| LegacyRepoCaches.LegacyRepoCache.QueryBugs | cache/repo_cache.go:538-580 | no query gives every id; otherwise the matching excerpts are ordered by the query's key and direction |
| LegacyRepoCaches.LegacyRepoCache.ValidLabels | cache/repo_cache.go:603-629 | the labels are ascending, each once, and exactly those some ticket carries |
| LegacyRepoCaches.LegacyRepoCache.NewBugRaw | cache/repo_cache.go:651-683 | a failed creation returns its error; an id already loaded is refused with "already exist in the cache"; otherwise the ticket is loaded and its excerpt written, the write outcome deciding the result |
| LegacyRepoCaches.LegacyRepoCache.MergeOne | cache/repo_cache.go:1326-1380 | one fetched configuration ref is decided as LegacyDecide says; an error changes no ref, anything else updates the refs as LegacySynced says |
| LegacyRepoCaches.LegacyRepoCache.MergeConfigs | cache/repo_cache.go:1314-1383 | every fetched ref under the remote's configuration prefix is merged in turn, and the refs and the outcome are those of LegacyMergeAll, as written or corrected |
| MockRepo.Chain | repository/mock_repo.go:195-212 | the commits listed are commits of the store, each the parent of the next, ending with the starting hash; the list is empty exactly when that hash is not a commit |
| MockRepo.Ancestors | repository/mock_repo.go:246-255 | the first walk lists the starting hash and each commit's parent after it, every hash but the last being a known commit; an unknown commit is an error |
| MockRepo.FirstCommon | repository/mock_repo.go:257-274 | a common ancestor found by the second walk is always one of the first walk's hashes |
| MockRepo.FirstCommonIsFirst | repository/mock_repo.go:257-274 | it is the first hash of the second hash's parent chain that the first walk listed |
| MockRepo.CommonAncestor | repository/mock_repo.go:245-275 | an ancestor is found only when the first walk succeeds, and it lies on the first hash's parent chain |
| MockRepo.Repo.constructor | repository/mock_repo.go:33-44 | a new store holds no blobs, trees, commits or refs |
| MockRepo.Repo.StoreData | repository/mock_repo.go:105-110 | the data is stored under its digest and nothing else changes |
| MockRepo.Repo.ReadData | repository/mock_repo.go:112-120 | a stored blob is returned; any other hash is "unknown hash" |
| MockRepo.Repo.StoreTree | repository/mock_repo.go:122-129 | the tree is stored under its digest and nothing else changes |
| MockRepo.Repo.StoreCommit | repository/mock_repo.go:131-138 | a root commit of the tree is stored under the digest of the tree hash |
| MockRepo.Repo.StoreCommitWithParent | repository/mock_repo.go:140-148 | a commit of the tree with that parent is stored under the digest of tree and parent |
| MockRepo.Repo.UpdateRef | repository/mock_repo.go:150-153 | the ref points at the hash; no object changes |
| MockRepo.Repo.RemoveRef | repository/mock_repo.go:155-158 | the ref is gone; no object changes |
| MockRepo.Repo.RefExist | repository/mock_repo.go:160-163 | true exactly when the ref exists |
| MockRepo.Repo.CopyRef | repository/mock_repo.go:165-174 | an unknown source is "Unknown ref" and changes nothing; otherwise the destination points where the source does |
| MockRepo.Repo.ListRefs | repository/mock_repo.go:176-186 | the refs listed are exactly those starting with the prefix, each once |
| MockRepo.Repo.ResolveRef | repository/mock_repo.go:188-193 | an existing ref gives its hash; any other is "Unknown ref" |
| MockRepo.Repo.ListCommits | repository/mock_repo.go:195-212 | the commits of the ref's parent chain, oldest first; none for an unknown ref |
| MockRepo.Repo.ReadTree | repository/mock_repo.go:222-243 | a tree hash gives that tree, a commit hash the tree of the commit, anything else "unknown hash" |
| MockRepo.Repo.CollectAncestors | repository/mock_repo.go:246-255 | the first loop of FindCommonAncestor yields what Ancestors states |
| MockRepo.Repo.FindCommonAncestor | repository/mock_repo.go:245-275 | the result is what CommonAncestor states |
| MockRepo.Repo.GetTreeHash | repository/mock_repo.go:285-292 | a commit gives its tree hash; anything else is "unknown commit" |
| MockRepo.ChainThroughParent | repository/mock_repo.go:140-148 | after a commit with a parent is stored, its chain is the parent's chain followed by it |
| BugTables.GoDiv | termui/bug_table.go:305 | Go's integer division truncates toward zero, which differs from Euclidean division only for negative dividends |
| BugTables.ClampedCursor | termui/bug_table.go:262-263 | the page cursor is clamped into 0..the number of ids and left alone when already inside |
| BugTables.Page | termui/bug_table.go:265-273 | a negative height gives an empty page; otherwise the page holds min(remaining, height) ids, the ones starting at the clamped cursor, in order |
| BugTables.NextThenPrevious | termui/bug_table.go:439-461 | when a next page exists, paging forward and then back returns to the same first row |
| BugTables.PagesTile | termui/bug_table.go:260-287 | the pages at multiples of the height tile the id list: every id appears on its page at its offset |
| BugTables.ClampedRow | termui/bug_table.go:428-437 | the selected row is clamped into the page, and is 0 on an empty page |
| BugTables.ColumnWidths | termui/bug_table.go:293-309 | the widths have the six columns, fix id 7, status 6, comments 3 and last edit 14, and give the title at least 10 |
| BugTables.ColumnsFillLine | termui/bug_table.go:293-309 | on a wide enough terminal the columns and five separators fill the line exactly and the author column is at least 15 and at most a third of what is left |
| BugTables.BugTable.DoPaginate | termui/bug_table.go:260-287 | the cursor is clamped, at most `max` excerpts are loaded, and the load succeeds exactly when every id of the page resolves; otherwise the first failing lookup's error is returned with the excerpts before it loaded |
| BugTables.BugTable.CursorDown | termui/bug_table.go:388-406 | inside a page the row moves down; on the last row of the last page nothing changes; otherwise the cursor moves to the next page with row 0 and that page is loaded, passing exactly when each of its ids resolves and otherwise returning the first lookup error with the excerpts before it loaded |
| BugTables.BugTable.CursorUp | termui/bug_table.go:408-426 | inside a page the row moves up; on row 0 of the first page nothing changes; otherwise the cursor moves to the previous page with row `max - 1` selected and that page is loaded, passing exactly when each of its ids resolves and otherwise returning the first lookup error with the excerpts before it loaded |
| BugTables.BugTable.CursorClamp | termui/bug_table.go:428-437 | only the selected row changes, clamped into the page |
| BugTables.BugTable.NextPage | termui/bug_table.go:439-449 | a no-op on the last page; otherwise the cursor advances by one page and that page is loaded, passing exactly when each of its ids resolves and otherwise returning the first lookup error with the excerpts before it loaded |
| BugTables.BugTable.PreviousPage | termui/bug_table.go:451-461 | a no-op on the first page; otherwise the cursor goes back one page, not below 0, and that page is loaded, passing exactly when each of its ids resolves and otherwise returning the first lookup error with the excerpts before it loaded |
| BugTables.BugTable.OpenBug | termui/bug_table.go:467-479 | an empty page opens nothing; a selected row inside the page opens that row's ticket or returns its lookup error; a row past the page (the index panic) or an unloaded row (the nil dereference) is an error result of its own |
| BugTables.BugTable.constructor | termui/bug_table.go:48-68 | a new table lists nothing yet and sits on the first row of the first page |
| WebUi.DetermineWorkflowStatuses | webui/webui.go:497-516 | the board's columns are exactly the valid statuses some ticket's workflow uses, in status order without repeats |
| WebUi.Trimmed | webui/webui.go:459-465 | the colour labels are exactly the ticket's labels with the prefix, with the prefix removed |
| WebUi.TrimmedPermutation | webui/webui.go:459-467 | reordering a ticket's labels reorders, and only reorders, its colour labels |
| WebUi.LabelKeyOrderInsensitive | webui/webui.go:459-467 | the label colour key does not depend on the order of the ticket's labels |
| WebUi.LabelKeyWords | webui/webui.go:459-467 | the label colour key is the sorted colour labels joined by spaces: splitting it gives them back, sorted |
| WebUi.CcbKey | webui/webui.go:469-492 | the CCB key is empty or the user name, and the user name only when that user has a CCB entry for a next status that is not approved |
| WebUi.AssigneeKey | webui/webui.go:449-457 | as written a ticket with an assignee gets no colour key; corrected, an unassigned ticket gets none and an assigned one its assignee's display name |
| WebUi.AssigneeColorInverted | webui/webui.go:449-457 | as written colouring by assignee leaves assigned tickets uncoloured and looks up the empty identity for unassigned ones |
| WebUi.AssigneeColorCorrected | webui/webui.go:449-457 | corrected, unassigned tickets are uncoloured and assigned ones keyed by their assignee's display name |
| WebUi.GetTicketColorKey | webui/webui.go:439-495 | computes the ticket's colour key for the query's colouring |
| WebUi.CollectTrimmed | webui/webui.go:460-465 | the loop collects the colour labels |
| WebUi.FindPendingCcb | webui/webui.go:478-490 | the loop computes the CCB key |
| WebUi.PaletteDistinct | webui/webui.go:80-83 | the palette's colours are pairwise distinct |
| WebUi.KeySlots | webui/webui.go:152-160 | every non-empty key seen gets a palette slot, and only those keys |
| WebUi.TicketSlots | webui/webui.go:152-160 | every coloured ticket's slot is a palette slot |
| WebUi.KeySlotStable | webui/webui.go:155-157 | a key keeps the colour it got first, whatever tickets follow |
| WebUi.KeySlotsDistinct | webui/webui.go:155-157 | while there are no more keys than colours, different keys get different slots |
| WebUi.KeyColorsDistinct | webui/webui.go:152-160 | while there are no more keys than colours, different keys get different colours |
| WebUi.AssignColors | webui/webui.go:139-161 | the loop paints the keys and the tickets with the palette colours of their slots |
| WebUi.TicketColorIsKeyColor | webui/webui.go:158-159 | a coloured ticket has its own key's colour |
| WebUi.FirstMatch | webui/webui.go:616-627 | the rule chosen is the first whose pattern matches; none is chosen when no pattern matches |
| WebUi.ApplyXrefs | webui/webui.go:616-627 | text no rule matches is unchanged; otherwise the first matching rule's link is handed to the match handler, and a link that cannot be built is an error |
| WebUi.CcbStateColor | webui/webui.go:630-639 | approved is green, blocked red, anything else grey |
| WebUi.ChecklistName | webui/webui.go:640-642 | a checklist label loses exactly its prefix; other labels are unchanged |
| WebUi.ChecklistStateColor | webui/webui.go:643-652 | passed is green, failed red, anything else grey |
| WebUi.ChecklistFieldStateColor | webui/webui.go:731-744 | passed is green, not applicable grey, TBD a warning, failed and any invalid state red |
| WebUi.SplitLines | webui/webui.go:653-655 | no line break is left; text without line breaks is unchanged |
| WebUi.SplitLinesJoins | webui/webui.go:653-655 | the result is the text's lines joined with "<br>" |
| WebUi.ReviewStatusColor | webui/webui.go:668-677 | an approving review is green, one that requests changes red, any other state grey |
| WebUi.TicketStatusColor | webui/webui.go:686-707 | vetted to reviewed are blue, accepted to done green, rejected red, proposed and invalid statuses grey |
| WebUi.WorkflowName | webui/webui.go:708-715 | empty without a workflow label; otherwise the first workflow label without its prefix |
| ShowCommand.LastWorkflow | commands/show.go:220-234 | there is no workflow exactly when no label is a workflow label; otherwise it is one of the labels and a workflow label |
| ShowCommand.WorkflowShown | commands/show.go:220-234 | "<NONE ASSIGNED>" without a workflow label; otherwise the workflow label without its prefix |
| ShowCommand.PlainLabels | commands/show.go:220-234 | the labels shown are exactly the ticket's labels that are neither workflow nor checklist labels |
| ShowCommand.WorkflowAndLabels | commands/show.go:220-234 | the loop computes the shown workflow and the shown labels |
| ShowCommand.LastWorkflowWins | commands/show.go:224-227 | a later workflow label overrides an earlier one; another label leaves the workflow shown |
| ShowCommand.PlainLabelsAppend | commands/show.go:220-234 | the shown labels of a concatenation are the concatenation of the shown labels, order kept |
| ShowCommand.PlainLabelsUnchanged | commands/show.go:220-234 | with no workflow or checklist label every label is shown, in order |
| ShowCommand.CcbUsers | commands/show.go:199-204 | the users grouped are exactly the display names of the CCB entries |
| ShowCommand.EntriesOf | commands/show.go:199-204 | a user's group holds exactly the CCB entries with that display name |
| ShowCommand.GroupByUser | commands/show.go:199-204 | the loop groups the CCB entries by display name |
| ShowCommand.CcbSummary | commands/show.go:197-218 | sorted lines, one per CCB user, each that user's line of approvals |
| ShowCommand.UserLines | commands/show.go:206-214 | one line per user group, each the line of that group |
| ShowCommand.OneLinePerMember | commands/show.go:197-218 | entries that share a display name form a single group holding all of them |
| UserCommand.Normalised | commands/user.go:158-168 | the normal form of a string is the upper-cased result of the diacritic-removing transform, and its error when the transform fails |
| UserCommand.CompareUsername | commands/user.go:157-180 | computes the username match: the search is a prefix of the whole name or of one of its words, after normalising both |
| UserCommand.AnyWordStarts | commands/user.go:174-178 | found exactly when the search starts one of the name's words |
| UserCommand.EmptySearchMatches | commands/user.go:170-172 | the empty search matches every name |
| UserCommand.CaseIgnored | commands/user.go:163-168 | lower- or upper-casing the name or the search never changes the answer |
| UserCommand.SameNormalFormSameAnswer | commands/user.go:158-168 | names and searches with the same normal form get the same answer, so diacritics removed by the transform do not matter |
| UserCommand.FieldsOfTwoWords | commands/user.go:174 | a name of two words separated by a space splits into those two words |
| UserCommand.PlainMatch | commands/user.go:157-180 | without diacritics, matching is the prefix test on the upper-cased name and search |
| UserCommand.MickeyMatches | commands/user_test.go:16-20 | "Mickey Mouse" matches itself and "Mick" |
| UserCommand.MouseMatches | commands/user_test.go:24-25 | "Mickey Mouse" matches its second word "Mouse" |
| UserCommand.HouseNoMatch | commands/user_test.go:28 | "Mickey Mouse" does not match "House" |
| UserCommand.MisspeltNoMatch | commands/user_test.go:27 | "Mickey Mouse" matches no other search of its own length, "Myckey Mouse" among them |
| UserCommand.ResolveUser | commands/user.go:21-56 | the loop over identities computes the resolution specification |
| UserCommand.ScanCounts | commands/user.go:25-45 | the scan succeeds exactly when at most one identity is picked; with none it keeps what it had, with one it yields the first picked |
| UserCommand.ResolveOne | commands/user.go:21-56 | one identity matching the first argument by id prefix or name resolves to it and consumes that argument |
| UserCommand.ResolveNone | commands/user.go:47-49 | no identity matching the first argument is the error "no users matching" with that argument |
| UserCommand.ResolveSeveral | commands/user.go:35-38 | two or more identities matching the first argument is an error |
| UserCommand.ResolveDefault | commands/user.go:52-54 | without arguments the configured user identity, or its error, is returned |
| Latest.LatestIndex | bug/review/gitea.go:299-310 | every position the latest-per-user scan keeps is a position of the review list |
| Latest.LatestIndexSpec | bug/review/gitea.go:299-310 | a user has an entry exactly when some kept review is theirs, and the entry is the first review carrying that user's newest timestamp (a later review with an equal timestamp does not replace it, because the comparison is strict) |
| Latest.FirstNewestUnique | bug/review/gitea.go:303 | the first-newest review of a user is unique, so the latest status per user is well defined |
| Latest.LatestAppend | bug/review/gitea.go:252-264 | appending reviews by a merge never loses a user and never makes that user's latest timestamp older |
| Latest.CountText | bug/review/gitea.go:134-143 | the comment-count tag is empty exactly when there are no comments |
| Sorting.SortStrings | webui/webui.go:465 | sorting keeps the list's elements and their multiplicities |
| Sorting.SortStringsSorted | commands/show.go:216 | the sorted list is in ascending byte order and a permutation of its input |
| Sorting.SortedUnique | commands/show.go:277 | two ascending permutations of one list are equal, so the sorted output does not depend on how the input was ordered |
| Sorting.SortStringsPermutation | commands/show.go:285 | lists holding the same strings sort to the same list, which makes output from Go map iteration deterministic once sorted |
| Sorting.SortBy | bug/op_set_review.go:59-61 | sorting by a key keeps the elements and their multiplicities |
| Sorting.SortBySorted | bug/op_set_review.go:59-61 | the result is ordered by the key and is a permutation of its input |
| Sorting.DistinctPermutation | bug/op_label_change.go:66-68 | a permutation of a list without duplicates has none either, so sorting labels keeps them distinct |

## Left out

- Git plumbing, the git binary and go-git (repository/git.go and its neighbours) are not part of this model; the in-memory store of repository/mock_repo.go stands for the repository, and other reads of git are parameters.
- Network lookups (FetchPhabricatorReviewInfo, FetchGiteaReviewInfo, getPhabId, getGiteaId, ReviewUrl) are remote APIs; their answers are parameters.
- On-disk state: the gob cache file, its writing and reading, the lock file and the select file are I/O; only the cache format version check is modelled.
- Concurrency: the MergeAll goroutines and channels, the cache's read-write locks and the terminal UI goroutines are left out; every call is sequential.
- Terminal and web UI: layouts, key bindings, editors, HTTP handlers, templates, sessions and the web/*.go handlers are presentation; only the logic named above is modelled.
- CLI glue: the commands other than `show` (workflowAndLabels, ccbSummary) and `user` (compareUsername, ResolveUser) print and prompt; what `show` prints is not modelled.
- Foreign computations are parameters: regular expressions (the RegexNode matchers of query/ast.go and the xref rules of the web UI), time parsing and formatting, SHA-256 and SHA-1, JSON encoding and decoding, text.Safe and text.Empty, termtext padding and truncation, Unicode normalisation, ANSI colour wrappers, identity matching and the LRU type behind the loaded tickets.
- Workflow hooks run through exec.Command are not modelled; transitions are validated without a hook.
- Label JSON decoding and encoding (config/label.go:185-283) and the Store and Load I/O of the label configuration are left out; the parsed configuration is the input.
- Term256.Escape and Unescape depend on a process-wide colour switch and produce terminal escapes; the colour index and Term256 value they use are modelled.
- Checklist.String and ChecklistState.ColorString (config/checklists.go:114-177) are terminal presentation with ANSI colours; the compound state they print is modelled.
- GetUserChecklists and GetCreateMetadata (bug/snapshot.go) read identities and metadata outside the model.
- NewBug, NewBugWithFiles and NewBugRaw of cache/repo_cache_bug.go build and commit a ticket entity, which is not part of this model; their option check (validateNewBugOptions) and the older cache's NewBugRaw duplicate check are modelled.
- bug/bug.go is not part of this model: a ticket keeps only its list of operations, and compiling a snapshot is an input where it is needed.
- The RegexToken and RegexNode of the query tests are absent from query/lexer.go, so the lexer model has no regular-expression token.
- The webui `formatTime`, `formatTimestamp`, `identityToName`, `getRepo` and `mdToHtml` helpers format times, call identities and render Markdown; they are left out.
- The transaction action names of bug/review/phabricator.go are modelled, but the Phabricator JSON decoding around them is not.
- Go map iteration order is unspecified: methods that iterate a map return the order they used as a ghost output, and their contracts hold for every order.
- sort.Sort and sort.Slice are not stable: where sort keys tie, the model fixes one order (a stable insertion sort); what is proved is that the result is sorted and a permutation of the input.
- QueryAst.MatcherString: Go's `%q` escaping of quotes and control characters inside a literal is not modelled; the literal is written between plain double quotes.
- MockRepo.Chain: the parent walk carries a fuel bound equal to the number of stored commits; on a cyclic parent chain the Go code loops forever, which the model does not represent.
- MockRepo.Repo.ListCommits and MockRepo.Repo.FindCommonAncestor: they inherit the same fuel bound for cyclic chains.
- Parser advance: the source tests the lexer error against a type, UnterminatedTokenError, that query/lexer.go does not define (the lexer returns UnterminatedStringTokenError), so the fallback branch, which reports the lexer's message at the current token, is the one modelled.
- The error texts of the bug, identity and entity packages are placeholders; which error is returned is modelled, its wording is not.
- GetSearches: a stored "searches" value of JSON `null` decodes in Go to a nil map, which the overrides then panic writing into; the decoder parameter always yields a map.
- LegacyRepoCaches.LegacyRepoCache.MergeOne: the error branch of the backup CopyRef is not modelled, because in the in-memory store that copy cannot fail (its source ref was resolved just before).
- The `ddlnXref` decorator: the DOM is modelled as a list of elements with text or children, the inserted HTML is not escaped (as in the source), and a repository name ending in `-` directly followed by a word character is the one token shape where the corrected classification needs a side condition.
- DdlnXref.Element.Rewrite: the browser re-parses the unescaped HTML it is given, so a text holding `<` or an `&` entity would end with a different text and further child elements; HTML parsing is not modelled, and the rewritten element keeps its text and has one child per link as if the text held no markup.
- CacheQuery.OrderedByTime: the comparators BugsByCreationTime and BugsByEditTime are not part of this model; an excerpt also carries Lamport times (printed by commands/ls.go:178-179), and the model orders by wall-clock time alone, so wherever the program's comparators let the Lamport times decide, its order is not the model's.
- Case mapping (strings.ToUpper, strings.ToLower, strings.EqualFold) is modelled on ASCII letters only.
- Review timeline items store the review's id; Go stores the review value and re-reads its id when removing it.
- Where version skew makes a source file call a function with a signature its callee does not have (bug/snapshot.go calling NextStatuses and ValidateTransition), the call is modelled as the callee defines it. query/parser.go:380 builds an `AuthorFilter` with an `AuthorName` field, while query/ast.go:64-65 declares the field as `Author`, a literal matcher; the model follows query/ast.go.
- Workflows.WorkflowOfLabels: bug/workflow.go:25 looks up a single label, but cache/filter.go:114, webui/webui.go:148 and webui/webui.go:469 and bug/snapshot.go:206 pass the whole label list, and cache/filter.go:120 and webui/webui.go:475 take one value from NextStatuses, which also returns an error. No callee defines a lookup over a list, so the model chooses one: the workflow of the first label, in list order, that names one (Workflows.LabelOrderDecides pins it). A ticket carrying two workflow labels may be treated differently by the program.
- A Go panic (index out of range, nil dereference, log.Fatal) is modelled as an error result the caller can tell apart (BugTables.BugTable.OpenBug, CacheFilter.MatchId, the sort switch of CacheQuery.Ordered and others); the crash of the process is not modelled.

## Findings

| source | as written | input that shows it | evidently intended | confidence | as-written member | corrected member |
|---|---|---|---|---|---|---|
| query/ast.go:178-180 | a title filter renders as `label(...)` | `TitleFilter` and `LabelFilter` on the same literal render the same text | a title filter renders as `title(...)` | not executed | QueryAst.TitleRendersAsLabel | QueryAst.FilterString |
| bug/label.go:310-313 | `GetLabelConfig` returns a (zero) configuration when the label is missing and nothing when it is configured | any configured label is reported as unknown | return the configuration exactly when the label is configured | not executed | BugLabel.GetLabelConfigAsWrittenInverted | BugLabel.ConfigOf |
| webui/webui.go:449-457 | colouring by assignee skips tickets that have an assignee and resolves the empty id for those that do not | a ticket with assignee id `"a"` gets the empty colour key | an assigned ticket is keyed by its assignee's display name; an unassigned one gets no key | not executed | WebUi.AssigneeColorInverted | WebUi.AssigneeColorCorrected |
| query/parser.go:683-697 | `parseColor` consumes no token, so the statement loop meets `color-by` again | any query with `color-by(...)`: the second pass over the same token reports "Multiple coloring criteria was specified", so no parse ever yields a colouring | parse one parenthesised colour filter after the keyword | not executed | QueryParser.Parser.Parse | QueryParser.Parser.ParseColor |
| cache/repo_cache.go:1335-1340 | `MergeConfigs` returns after copying the first new remote configuration | two new remote configurations `a` and `b`: only `a` is copied | copy every new remote configuration, then continue | not executed | LegacyRepoCaches.MergeConfigsStopsAfterCopy | LegacyRepoCaches.MergeConfigsCoversAll |
| query/parser.go:82-95 | `ParseError.Error` slices the query up to the span's end | the query `status(` gives "Expected literal" at [7, 8), past the 7-byte query: the slice panics | clip the highlighted part at the end of the query | not executed | QueryParser.EndOfInputErrorPanics | QueryParser.ErrorText |
| cache/filter.go:193-199 | a creation or edit date filter holds only for a "before" bound | an "after" bound `d` with creation time `d + 1` does not match | an "after" bound holds when the ticket's time is later than the bound | not executed | CacheFilter.AfterNeverMatchesAsWritten | CacheFilter.DateFiltersCompare |
| cache/repo_cache_identity.go:352-364 | `UpdateIdentity` passes `skipGiteaId` where `skipPhabId` is expected | skipPhabId = true, skipGiteaId = false: the Phabricator lookup still runs and its failure fails the update | skip the Phabricator lookup exactly when asked | not executed | IdentityLookups.PhabSkipIgnoredAsWritten | IdentityLookups.PhabSkipHonoured |
| web/assets/ddln-xref.js:18-25 | `replaceSingle` links a segment by the first rule found anywhere inside it and rewrites only that occurrence | `https://x.io/T1` links to `https://x.io/https://p.daedalean.ai/T1` | link a segment by the rule that matches it as a whole | not executed | DdlnXref.UrlWithIdAsWritten | DdlnXref.CorrectedLinksToken |
