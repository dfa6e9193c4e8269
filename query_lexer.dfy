/** The query lexer (query/lexer.go): a byte-level scanner that turns a query into
    identifier, parenthesis, comma, string and end-of-input tokens, each with the span of
    bytes it covers; and the older `qualifier:value` tokenizer. Each character of a string
    stands for one byte of the query. */
module QueryLexer {
  import opened Wrappers
  import opened StrUtil

  datatype TokenType = IdentToken | LparenToken | RparenToken | CommaToken | StringToken | EofToken

  /** The bytes [begin, end) of the query. */
  datatype Span = Span(begin: int, end: int)

  datatype Token = Token(tokenType: TokenType, literal: string, span: Span)

  /** The byte at `pos`, or NUL past the end of the query: the lexer reads a NUL byte in
      the query as the end of input too. */
  function CharAt(query: string, pos: nat): char {
    if pos < |query| then query[pos] else '\0'
  }

  predicate IsWhitespace(ch: char) {
    ch == '\n' || ch == '\t' || ch == ' ' || ch == '\r'
  }

  /** The bytes that form a token of their own. */
  predicate IsSimple(ch: char) {
    ch == '(' || ch == ')' || ch == ',' || ch == '\0'
  }

  predicate IsKnownToken(ch: char) {
    IsSimple(ch) || ch == '"'
  }

  /** A byte that may belong to an identifier. */
  predicate IsIdentChar(ch: char) {
    !IsWhitespace(ch) && !IsKnownToken(ch)
  }

  function SimpleType(ch: char): TokenType
    requires IsSimple(ch)
  {
    if ch == '(' then LparenToken else if ch == ')' then RparenToken else if ch == ',' then CommaToken else EofToken
  }

  /** The first position from `pos` on that does not hold white space. */
  function SkipFrom(query: string, pos: nat): (r: nat)
    ensures r >= pos && !IsWhitespace(CharAt(query, r))
    ensures forall k :: pos <= k < r ==> IsWhitespace(CharAt(query, k))
    decreases |query| - pos
  {
    if IsWhitespace(CharAt(query, pos)) then SkipFrom(query, pos + 1) else pos
  }

  /** The first position from `pos` on that cannot belong to an identifier. */
  function IdentEnd(query: string, pos: nat): (r: nat)
    ensures r >= pos && !IsIdentChar(CharAt(query, r))
    ensures r <= |query| || r == pos
    ensures forall k :: pos <= k < r ==> IsIdentChar(CharAt(query, k))
    decreases |query| - pos
  {
    if IsIdentChar(CharAt(query, pos)) then IdentEnd(query, pos + 1) else pos
  }

  /** The position of the first `"` at or after `from`. */
  function QuoteFrom(query: string, from: nat): (r: Option<nat>)
    ensures r.Some? ==> (from <= r.value < |query| && query[r.value] == '"'
      && forall k :: from <= k < r.value ==> query[k] != '"')
    ensures r.None? ==> forall k :: from <= k < |query| ==> query[k] != '"'
    decreases |query| - from
  {
    if from >= |query| then None
    else if query[from] == '"' then Some(from)
    else QuoteFrom(query, from + 1)
  }

  /** The result of NextToken: a token and the position after it, or an unterminated
      string, reported with its span and leaving the position at the quote. */
  datatype Lexed = Lexed(token: Token, pos: nat) | Unterminated(span: Span, pos: nat)

  /** UnterminatedStringTokenError.Error: the text under the span. The lexer only reports
      spans inside the query (LexUnterminated); any other span shows no text. */
  function UnterminatedMessage(query: string, span: Span): string {
    "Unterminated string token: " + (if 0 <= span.begin <= span.end <= |query| then query[span.begin..span.end] else "")
  }

  /** What NextToken yields at position `pos`. */
  function LexAt(query: string, pos: nat): Lexed {
    var p := SkipFrom(query, pos);
    var ch := CharAt(query, p);
    if IsSimple(ch) then Lexed(Token(SimpleType(ch), [ch], Span(p, p + 1)), p + 1)
    else if ch == '"' then
      match QuoteFrom(query, p + 1)
      case None => Unterminated(Span(p, |query|), p)
      case Some(e) => Lexed(Token(StringToken, query[p + 1..e], Span(p, e + 1)), e + 1)
    else
      var e := IdentEnd(query, p);
      Lexed(Token(IdentToken, query[p..e], Span(p, e)), e)
  }

  class Lexer {
    var query: string
    var pos: nat

    /** NewLexer: scanning starts at the first byte. */
    constructor (query: string)
      ensures this.query == query && pos == 0
    {
      this.query := query;
      pos := 0;
    }

    function CurChar(): char
      reads this
    {
      CharAt(query, pos)
    }

    /** advance: one byte forward; the byte now under the cursor. */
    method Advance() returns (ch: char)
      modifies this`pos
      ensures pos == old(pos) + 1 && ch == CurChar()
    {
      pos := pos + 1;
      ch := CurChar();
    }

    /** skipWhitespace: moves to the next byte that is not white space. */
    method SkipWhitespace()
      modifies this`pos
      ensures pos == SkipFrom(query, old(pos))
    {
      var ch := CurChar();
      while IsWhitespace(ch)
        invariant pos >= old(pos) && ch == CurChar()
        invariant SkipFrom(query, pos) == SkipFrom(query, old(pos))
        decreases |query| - pos
      {
        ch := Advance();
      }
    }

    /** parseIdentToken: the run of identifier bytes from the cursor. */
    method ParseIdentToken() returns (token: Token)
      requires IsIdentChar(CurChar())
      modifies this`pos
      ensures pos == IdentEnd(query, old(pos))
      ensures token == Token(IdentToken, query[old(pos)..pos], Span(old(pos), pos))
    {
      var begin := pos;
      var ch := CurChar();
      while IsIdentChar(ch)
        invariant pos >= begin && ch == CurChar()
        invariant IdentEnd(query, pos) == IdentEnd(query, begin)
        decreases |query| - pos
      {
        ch := Advance();
      }
      var end := pos;
      token := Token(IdentToken, query[begin..end], Span(begin, end));
    }

    /** The search for the closing quote (strings.Index on the rest of the query). */
    method FindQuote(from: nat) returns (r: Option<nat>)
      ensures r == QuoteFrom(query, from)
    {
      var k := from;
      while k < |query|
        invariant from <= k && QuoteFrom(query, k) == QuoteFrom(query, from)
        decreases |query| - k
      {
        if query[k] == '"' {
          return Some(k);
        }
        k := k + 1;
      }
      return None;
    }

    /** NextToken. */
    method NextToken() returns (r: Lexed)
      modifies this`pos
      ensures r == LexAt(query, old(pos)) && pos == r.pos
    {
      SkipWhitespace();
      var ch := CurChar();
      if IsSimple(ch) {
        var token := Token(SimpleType(ch), [ch], Span(pos, pos + 1));
        var _ := Advance();
        return Lexed(token, pos);
      }
      if ch == '"' {
        var e := FindQuote(pos + 1);
        if e.None? {
          return Unterminated(Span(pos, |query|), pos);
        }
        var token := Token(StringToken, query[pos + 1..e.value], Span(pos, e.value + 1));
        pos := e.value + 1;
        return Lexed(token, pos);
      }
      var token := ParseIdentToken();
      return Lexed(token, pos);
    }
  }

  /** Every token moves the scan forward, so a parser that reads tokens until the end of input
      or an error stops. */
  lemma LexProgress(query: string, pos: nat)
    ensures LexAt(query, pos).Lexed? ==> LexAt(query, pos).pos > pos
  {
  }

  /** White space is never part of a token: the token's span starts after the white space
      that precedes it; input made only of white space yields the end-of-input token. */
  lemma LexSkipsWhitespace(query: string, pos: nat)
    ensures var p := SkipFrom(query, pos);
      LexAt(query, pos).Lexed? ==> LexAt(query, pos).token.span.begin == p && !IsWhitespace(CharAt(query, p))
    ensures (forall k :: pos <= k < |query| ==> IsWhitespace(query[k])) ==>
      LexAt(query, pos).Lexed? && LexAt(query, pos).token.tokenType == EofToken
  {
    if forall k :: pos <= k < |query| ==> IsWhitespace(query[k]) {
      var p := SkipFrom(query, pos);
      if p < |query| {
        assert IsWhitespace(query[p]);
      }
    }
  }

  /** Where tokens lie: a token starts at or after the position lexing started from, is not
      empty, and the lexer stops right after it; only the end-of-input token may reach past
      the query. An unterminated string leaves the lexer at or after where it started. */
  lemma LexSpans(query: string, pos: nat)
    ensures var l := LexAt(query, pos);
      l.Lexed? ==> (pos <= l.token.span.begin < l.token.span.end == l.pos
        && (l.token.tokenType != EofToken ==> l.token.span.end <= |query|))
    ensures LexAt(query, pos).Unterminated? ==> LexAt(query, pos).pos >= pos
  {
    var p := SkipFrom(query, pos);
    if IsIdentChar(CharAt(query, p)) {
      assert IdentEnd(query, p) > p;
    }
  }

  /** Past the end of input, NextToken keeps returning the end-of-input token, one position
      further each time. */
  lemma LexPastEnd(query: string, pos: nat)
    requires pos >= |query|
    ensures LexAt(query, pos) == Lexed(Token(EofToken, ['\0'], Span(pos, pos + 1)), pos + 1)
  {
  }

  /** An identifier token is a non-empty maximal run of identifier bytes, and its literal is
      exactly the query's bytes under its span. */
  lemma LexIdent(query: string, pos: nat)
    ensures var l := LexAt(query, pos);
      l.Lexed? && l.token.tokenType == IdentToken ==>
        && 0 <= l.token.span.begin < l.token.span.end <= |query|
        && l.token.literal == query[l.token.span.begin..l.token.span.end]
        && (forall k :: l.token.span.begin <= k < l.token.span.end ==> IsIdentChar(query[k]))
        && !IsIdentChar(CharAt(query, l.token.span.end))
        && l.pos == l.token.span.end
  {
    var l := LexAt(query, pos);
    if l.Lexed? && l.token.tokenType == IdentToken {
      var p := SkipFrom(query, pos);
      var e := IdentEnd(query, p);
      assert IsIdentChar(CharAt(query, p));
      forall k | p <= k < e
        ensures IsIdentChar(query[k])
      {
        assert IsIdentChar(CharAt(query, k));
      }
    }
  }

  /** A string token covers both quotes, its literal is the text strictly between them and
      holds no quote, and lexing resumes after the closing quote. */
  lemma LexString(query: string, pos: nat)
    ensures var l := LexAt(query, pos);
      l.Lexed? && l.token.tokenType == StringToken ==>
        && 0 <= l.token.span.begin && l.token.span.begin + 2 <= l.token.span.end <= |query|
        && query[l.token.span.begin] == '"' && query[l.token.span.end - 1] == '"'
        && l.token.literal == query[l.token.span.begin + 1..l.token.span.end - 1]
        && '"' !in l.token.literal
        && l.pos == l.token.span.end
  {
  }

  /** A `"` with no closing quote is an error whose span runs from the quote to the end of
      the query. */
  lemma LexUnterminated(query: string, pos: nat)
    ensures var l := LexAt(query, pos);
      l.Unterminated? ==>
        && 0 <= l.span.begin < l.span.end == |query|
        && query[l.span.begin] == '"'
        && '"' !in query[l.span.begin + 1..]
  {
  }

  /** The one-byte tokens: `(`, `)` and `,` each give a token of their own, spanning that
      byte. */
  lemma LexSimple(query: string, pos: nat)
    ensures var p := SkipFrom(query, pos);
      p < |query| && query[p] in {'(', ')', ','} ==>
        LexAt(query, pos) == Lexed(Token(SimpleType(query[p]), [query[p]], Span(p, p + 1)), p + 1)
  {
  }

  // ---- the older qualifier:value tokenizer ----

  predicate IsQuote(r: char) {
    r == '"' || r == '\''
  }

  /** The state of splitQuery's scan: the quote that opened the current quoted run, whether
      one is open, the field being built and the fields so far. */
  datatype SplitState = SplitState(lastQuote: char, inQuote: bool, cur: string, fields: seq<string>)

  /** One character of splitQuery. A character that is kept (any character inside quotes,
      the quotes themselves, and any non-space outside) joins the current field; a space
      outside quotes ends a non-empty field. */
  function SplitStep(st: SplitState, r: char): SplitState {
    if !st.inQuote && IsQuote(r) then st.(lastQuote := r, inQuote := true, cur := st.cur + [r])
    else if st.inQuote && r == st.lastQuote then st.(lastQuote := '\0', inQuote := false, cur := st.cur + [r])
    else if st.inQuote then st.(cur := st.cur + [r])
    else if !IsSpace(r) then st.(cur := st.cur + [r])
    else if |st.cur| > 0 then st.(cur := "", fields := st.fields + [st.cur])
    else st
  }

  function SplitFold(st: SplitState, s: string): SplitState
    decreases |s|
  {
    if s == [] then st else SplitFold(SplitStep(st, s[0]), s[1..])
  }

  /** splitQuery's result: the fields, or an error for a quote left open. */
  function SplitQuerySpec(query: string): Result<seq<string>> {
    var st := SplitFold(SplitState('\0', false, "", []), query);
    if st.inQuote then Err("unmatched quote")
    else if |st.cur| > 0 then Ok(st.fields + [st.cur])
    else Ok(st.fields)
  }

  /** splitQuery. */
  method SplitQuery(query: string) returns (r: Result<seq<string>>)
    ensures r == SplitQuerySpec(query)
  {
    var lastQuote, inQuote := '\0', false;
    var result: seq<string> := [];
    var token := "";
    var i := 0;
    while i < |query|
      invariant 0 <= i <= |query|
      invariant SplitFold(SplitState(lastQuote, inQuote, token, result), query[i..])
        == SplitFold(SplitState('\0', false, "", []), query)
    {
      assert query[i..][1..] == query[i + 1..];
      var c := query[i];
      if !inQuote && IsQuote(c) {
        lastQuote, inQuote := c, true;
        token := token + [c];
      } else if inQuote && c == lastQuote {
        lastQuote, inQuote := '\0', false;
        token := token + [c];
      } else if inQuote || !IsSpace(c) {
        token := token + [c];
      } else if |token| > 0 {
        result := result + [token];
        token := "";
      }
      i := i + 1;
    }
    if inQuote {
      return Err("unmatched quote");
    }
    if |token| > 0 {
      result := result + [token];
    }
    return Ok(result);
  }

  /** The scan never records an empty field and, outside quotes, never lets a space into
      one. */
  predicate SplitInv(st: SplitState, quoteFree: bool) {
    (forall k :: 0 <= k < |st.fields| ==> |st.fields[k]| > 0)
    && (quoteFree ==> !st.inQuote && (forall k :: 0 <= k < |st.fields| ==> NoSpace(st.fields[k])) && NoSpace(st.cur))
  }

  predicate NoSpace(s: string) {
    forall j :: 0 <= j < |s| ==> !IsSpace(s[j])
  }

  predicate NoQuote(s: string) {
    forall j :: 0 <= j < |s| ==> !IsQuote(s[j])
  }

  lemma {:induction false} SplitFoldInv(st: SplitState, s: string, quoteFree: bool)
    requires SplitInv(st, quoteFree) && (quoteFree ==> NoQuote(s))
    ensures SplitInv(SplitFold(st, s), quoteFree)
    decreases |s|
  {
    if s != [] {
      var next := SplitStep(st, s[0]);
      if quoteFree {
        assert !IsQuote(s[0]);
        assert NoQuote(s[1..]) by {
          forall j | 0 <= j < |s[1..]| ensures !IsQuote(s[1..][j]) {
            assert s[1..][j] == s[j + 1];
          }
        }
      }
      assert SplitInv(next, quoteFree);
      SplitFoldInv(next, s[1..], quoteFree);
    }
  }

  /** splitQuery yields only non-empty fields, and on a query without quotes it always
      succeeds with fields that hold no white space. */
  lemma SplitQueryFields(query: string)
    ensures SplitQuerySpec(query).Ok? ==> forall k :: 0 <= k < |SplitQuerySpec(query).value| ==> |SplitQuerySpec(query).value[k]| > 0
    ensures NoQuote(query) ==> (SplitQuerySpec(query).Ok?
      && forall k :: 0 <= k < |SplitQuerySpec(query).value| ==> NoSpace(SplitQuerySpec(query).value[k]))
  {
    var init := SplitState('\0', false, "", []);
    SplitFoldInv(init, query, false);
    if NoQuote(query) {
      SplitFoldInv(init, query, true);
    }
  }

  /** removeQuote: a field of at least two characters that starts and ends with the same
      quote loses that pair; any other field is left as it is. */
  function RemoveQuote(field: string): (r: string)
    ensures |field| >= 2 && field[0] == field[|field| - 1] && IsQuote(field[0]) ==> r == field[1..|field| - 1]
    ensures !(|field| >= 2 && field[0] == field[|field| - 1] && IsQuote(field[0])) ==> r == field
  {
    if |field| >= 2 && field[0] == field[|field| - 1] && IsQuote(field[0]) then field[1..|field| - 1] else field
  }

  /** Quoting a value and removing the quotes gives the value back. */
  lemma RemoveQuoteRoundTrip(s: string, q: char)
    requires IsQuote(q)
    ensures RemoveQuote([q] + s + [q]) == s
  {
    assert ([q] + s + [q])[1..|s| + 1] == s;
  }

  /** A qualifier and its value. */
  datatype QueryToken = QueryToken(qualifier: string, value: string)

  /** One field of tokenize: split at the first ':' into a non-empty qualifier and a
      non-empty value, whose quotes are removed. */
  function TokenizeField(field: string): (r: Result<QueryToken>)
    ensures r.Ok? ==> exists k :: (0 < k < |field| - 1 && field[k] == ':' && ':' !in field[..k]
      && r.value == QueryToken(field[..k], RemoveQuote(field[k + 1..])))
  {
    if ':' !in field then Err("can't tokenize \"" + field + "\"")
    else
      var k := IndexOf(field, ':');
      if k == 0 then Err("can't tokenize \"" + field + "\": empty qualifier")
      else if k + 1 == |field| then Err("empty value for qualifier \"" + field[..k] + "\"")
      else Ok(QueryToken(field[..k], RemoveQuote(field[k + 1..])))
  }

  /** tokenize's result: the first field that does not tokenize is the error. */
  function TokenizeSpec(query: string): Result<seq<QueryToken>> {
    match SplitQuerySpec(query)
    case Err(m) => Err(m)
    case Ok(fields) => TokenizeFields(fields)
  }

  function TokenizeFields(fields: seq<string>): Result<seq<QueryToken>> {
    if fields == [] then Ok([])
    else match TokenizeField(fields[0])
      case Err(m) => Err(m)
      case Ok(t) => Prepend([t], TokenizeFields(fields[1..]))
  }

  /** tokenize succeeds iff every field tokenizes, and then gives one token per field, in
      order. */
  lemma {:induction false} TokenizeFieldsMeaning(fields: seq<string>)
    ensures var r := TokenizeFields(fields);
      r.Ok? ==> |r.value| == |fields| && forall k :: 0 <= k < |fields| ==> TokenizeField(fields[k]) == Ok(r.value[k])
    ensures TokenizeFields(fields).Err? <==> exists k :: 0 <= k < |fields| && TokenizeField(fields[k]).Err?
  {
    if fields != [] {
      TokenizeFieldsMeaning(fields[1..]);
      assert forall k :: 1 <= k < |fields| ==> fields[k] == fields[1..][k - 1];
    }
  }

  function Prepend(tokens: seq<QueryToken>, r: Result<seq<QueryToken>>): Result<seq<QueryToken>> {
    if r.Err? then r else Ok(tokens + r.value)
  }

  /** tokenize. */
  method Tokenize(query: string) returns (r: Result<seq<QueryToken>>)
    ensures r == TokenizeSpec(query)
  {
    var fields := SplitQuery(query);
    if fields.Err? {
      return Err(fields.msg);
    }
    r := TokenizeAll(fields.value);
  }

  /** The loop of tokenize over the fields. */
  method TokenizeAll(fields: seq<string>) returns (r: Result<seq<QueryToken>>)
    ensures r == TokenizeFields(fields)
  {
    var tokens: seq<QueryToken> := [];
    var i := 0;
    assert fields[i..] == fields;
    assert TokenizeFields(fields).Ok? ==> [] + TokenizeFields(fields).value == TokenizeFields(fields).value;
    while i < |fields|
      invariant 0 <= i <= |fields|
      invariant TokenizeFields(fields) == Prepend(tokens, TokenizeFields(fields[i..]))
    {
      assert fields[i..][1..] == fields[i + 1..];
      var t := TokenizeField(fields[i]);
      if t.Err? {
        return Err(t.msg);
      }
      var rest := TokenizeFields(fields[i + 1..]);
      assert rest.Ok? ==> tokens + ([t.value] + rest.value) == (tokens + [t.value]) + rest.value;
      tokens := tokens + [t.value];
      i := i + 1;
    }
    assert fields[i..] == [];
    assert tokens + [] == tokens;
    return Ok(tokens);
  }
}
