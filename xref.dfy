/** The browser-side cross-reference decorator `ddlnXref(textClass)`: the text of every
    childless element of the given class is split by one combined pattern into alternating
    literal and token segments, each segment is passed through `replaceSingle`, and the
    pieces are joined back into the element's HTML.

    The four recognisers are modelled with the semantics of JavaScript regular expressions
    without the `u` flag: `\b` is a change between a word character `[A-Za-z0-9_]` and a
    non-word character (or an end of the string), quantifiers are greedy and backtrack, an
    alternation takes its first alternative that succeeds, and a search reports the
    leftmost position where the pattern matches. */
module DdlnXref {
  import opened Wrappers
  import opened StrUtil

  // ---------------------------------------------------------------------------------------
  // Character classes

  /** `\w`. */
  predicate IsWordChar(c: char) {
    ('a' <= c <= 'z') || ('A' <= c <= 'Z') || ('0' <= c <= '9') || c == '_'
  }

  /** `\d`. */
  predicate IsDigit(c: char) {
    '0' <= c <= '9'
  }

  /** `[A-Fa-f0-9]`. */
  predicate IsHexDigit(c: char) {
    ('0' <= c <= '9') || ('a' <= c <= 'f') || ('A' <= c <= 'F')
  }

  /** `[A-Za-z0-9-]`. */
  predicate IsRepoChar(c: char) {
    ('a' <= c <= 'z') || ('A' <= c <= 'Z') || ('0' <= c <= '9') || c == '-'
  }

  /** The characters `\s` matches in JavaScript (white space and line terminators). */
  const JsSpaces: set<char> := {
    '\t', '\n', '\U{000B}', '\U{000C}', '\r', ' ', '\U{00A0}', '\U{1680}',
    '\U{2000}', '\U{2001}', '\U{2002}', '\U{2003}', '\U{2004}', '\U{2005}', '\U{2006}',
    '\U{2007}', '\U{2008}', '\U{2009}', '\U{200A}',
    '\U{2028}', '\U{2029}', '\U{202F}', '\U{205F}', '\U{3000}', '\U{FEFF}'
  }

  /** `\S`. */
  predicate IsNonSpace(c: char) {
    c !in JsSpaces
  }

  /** A word character stands at position `i` (positions outside the string do not). */
  predicate WordAt(t: string, i: int) {
    0 <= i < |t| && IsWordChar(t[i])
  }

  /** `\b` holds at position `i`, between `t[i-1]` and `t[i]`. */
  predicate Boundary(t: string, i: int) {
    WordAt(t, i - 1) != WordAt(t, i)
  }

  /** The end of the longest run of characters satisfying `p` that starts at `i`: where a
      greedy `p+` or `p*` starting at `i` stops. */
  function RunEnd(t: string, i: nat, p: char -> bool): (e: nat)
    requires i <= |t|
    ensures i <= e <= |t|
    ensures forall k :: i <= k < e ==> p(t[k])
    ensures e == |t| || !p(t[e])
    decreases |t| - i
  {
    if i < |t| && p(t[i]) then RunEnd(t, i + 1, p) else i
  }

  /** The largest `j` with `lo < j <= hi` at which `\b` holds: where a greedy run followed by
      `\b` ends after backtracking. */
  function LastBoundary(t: string, lo: nat, hi: nat): (m: Option<nat>)
    requires lo <= hi <= |t|
    ensures m.Some? ==> lo < m.value <= hi && Boundary(t, m.value)
    ensures m.Some? ==> forall k :: m.value < k <= hi ==> !Boundary(t, k)
    ensures m.None? ==> forall k :: lo < k <= hi ==> !Boundary(t, k)
    decreases hi
  {
    if hi <= lo then None
    else if Boundary(t, hi) then Some(hi)
    else LastBoundary(t, lo, hi - 1)
  }

  // ---------------------------------------------------------------------------------------
  // The recognisers

  /** The entries of `PATTERNS`, in declaration order. */
  datatype Rule =
    | Phabricator   // \b[TD](?:\d+)\b
    | TicketHash    // \b(?:[A-Fa-f0-9]{7,64})\b
    | GiteaRepo     // \b(?:exp-|prod-)[A-Za-z0-9-]+\b
    | Url           // \bhttp(?:s)?:\/\/\S+

  const Rules: seq<Rule> := [Phabricator, TicketHash, GiteaRepo, Url]

  /** Each rule's handler applied to the matched text. */
  function Destination(r: Rule, token: string): (href: string)
    ensures r == Url ==> href == token
    ensures r != Url ==> HasSuffix(href, token)
  {
    match r
    case Phabricator => "https://p.daedalean.ai/" + token
    case TicketHash => "/ticket/" + token
    case GiteaRepo => "https://gitea.daedalean.ai/daedalean/" + token
    case Url => token
  }

  /** Where the `[A-Za-z0-9-]+` part of a repository name starts, after its prefix. */
  function RepoBodyStart(t: string, i: nat): (p: Option<nat>)
    requires i <= |t|
  {
    if HasPrefix(t[i..], "exp-") then Some(i + 4)
    else if HasPrefix(t[i..], "prod-") then Some(i + 5)
    else None
  }

  /** Where the `\S+` part of a link starts, after `http://` or `https://`. The greedy `s?`
      is tried first; giving it back cannot help, since `:` would then have to match `s`. */
  function UrlBodyStart(t: string, i: nat): (p: Option<nat>)
    requires i <= |t|
  {
    if HasPrefix(t[i..], "https://") then Some(i + 8)
    else if HasPrefix(t[i..], "http://") then Some(i + 7)
    else None
  }

  /** Where `[TD](?:\d+)\b` starts at `i` ends: the digits form a run of word characters,
      so the closing `\b` can only hold where the run ends. */
  function PhabricatorEnd(t: string, i: nat): (m: Option<nat>)
    requires i < |t|
    ensures m.Some? ==> i < m.value <= |t|
  {
    if t[i] == 'T' || t[i] == 'D' then
      var e := RunEnd(t, i + 1, IsDigit);
      if e > i + 1 && Boundary(t, e) then Some(e) else None
    else None
  }

  /** Where `[A-Fa-f0-9]{7,64}\b` starting at `i` ends: backtracking inside a run of
      hexadecimal digits never reaches a `\b`, so the whole run must have 7 to 64 digits. */
  function TicketHashEnd(t: string, i: nat): (m: Option<nat>)
    requires i < |t|
    ensures m.Some? ==> i < m.value <= |t|
  {
    var e := RunEnd(t, i, IsHexDigit);
    if 7 <= e - i <= 64 && Boundary(t, e) then Some(e) else None
  }

  /** Where `(?:exp-|prod-)[A-Za-z0-9-]+\b` starting at `i` ends: the run backtracks to the
      last `\b` inside it. */
  function GiteaRepoEnd(t: string, i: nat): (m: Option<nat>)
    requires i < |t|
    ensures m.Some? ==> i < m.value <= |t|
  {
    var p := RepoBodyStart(t, i);
    if p.None? || p.value > |t| then None
    else LastBoundary(t, p.value, RunEnd(t, p.value, IsRepoChar))
  }

  /** Where `http(?:s)?:\/\/\S+` starting at `i` ends: `\S+` keeps its whole run. */
  function UrlEnd(t: string, i: nat): (m: Option<nat>)
    requires i < |t|
    ensures m.Some? ==> i < m.value <= |t|
  {
    var p := UrlBodyStart(t, i);
    if p.None? || p.value > |t| then None
    else
      var e := RunEnd(t, p.value, IsNonSpace);
      if e > p.value then Some(e) else None
  }

  /** Where rule `r`'s pattern, tried at position `i` of `t`, ends: every pattern opens
      with `\b` and a word character. */
  function MatchAt(r: Rule, t: string, i: nat): (m: Option<nat>)
    requires i <= |t|
    ensures m.Some? ==> i < m.value <= |t| && IsWordChar(t[i]) && !WordAt(t, i - 1)
  {
    if i == |t| || !IsWordChar(t[i]) || WordAt(t, i - 1) then None
    else match r
      case Phabricator => PhabricatorEnd(t, i)
      case TicketHash => TicketHashEnd(t, i)
      case GiteaRepo => GiteaRepoEnd(t, i)
      case Url => UrlEnd(t, i)
  }

  /** The position of a rule in `PATTERNS`. */
  function RuleIndex(r: Rule): (n: nat)
    ensures n < |Rules| && Rules[n] == r
  {
    match r
    case Phabricator => 0
    case TicketHash => 1
    case GiteaRepo => 2
    case Url => 3
  }

  /** The first of the rules `rs` whose pattern matches at position `i`, with the end of its
      match. */
  function FirstMatch(rs: seq<Rule>, t: string, i: nat): (m: Option<(Rule, nat)>)
    requires i <= |t|
    ensures m.Some? ==> m.value.0 in rs && i < m.value.1 <= |t| && MatchAt(m.value.0, t, i) == Some(m.value.1)
  {
    if rs == [] then None
    else match MatchAt(rs[0], t, i)
      case Some(e) => Some((rs[0], e))
      case None => FirstMatch(rs[1..], t, i)
  }

  /** `SPLIT_PATTERN` tried at position `i`: the alternation takes the first rule, in
      declaration order, whose pattern matches there; the result names that rule and the
      end of its match. */
  function SplitMatchAt(t: string, i: nat): (m: Option<(Rule, nat)>)
    requires i <= |t|
    ensures m.Some? ==> i < m.value.1 <= |t| && MatchAt(m.value.0, t, i) == Some(m.value.1)
  {
    FirstMatch(Rules, t, i)
  }

  /** The alternation spelled out: each rule is tried only where every rule before it
      fails. */
  lemma SplitMatchCases(t: string, i: nat)
    requires i <= |t|
    ensures SplitMatchAt(t, i) ==
      if MatchAt(Phabricator, t, i).Some? then Some((Phabricator, MatchAt(Phabricator, t, i).value))
      else if MatchAt(TicketHash, t, i).Some? then Some((TicketHash, MatchAt(TicketHash, t, i).value))
      else if MatchAt(GiteaRepo, t, i).Some? then Some((GiteaRepo, MatchAt(GiteaRepo, t, i).value))
      else if MatchAt(Url, t, i).Some? then Some((Url, MatchAt(Url, t, i).value))
      else None
  {
    var r1, r2, r3 := Rules[1..], Rules[2..], Rules[3..];
    assert r1[1..] == r2 && r2[1..] == r3 && r3[1..] == [];
    assert FirstMatch(r3, t, i) ==
      if MatchAt(Url, t, i).Some? then Some((Url, MatchAt(Url, t, i).value)) else None;
    assert FirstMatch(r2, t, i) ==
      if MatchAt(GiteaRepo, t, i).Some? then Some((GiteaRepo, MatchAt(GiteaRepo, t, i).value))
      else FirstMatch(r3, t, i);
    assert FirstMatch(r1, t, i) ==
      if MatchAt(TicketHash, t, i).Some? then Some((TicketHash, MatchAt(TicketHash, t, i).value))
      else FirstMatch(r2, t, i);
  }

  lemma {:induction false} FirstMatchNone(rs: seq<Rule>, t: string, i: nat)
    requires i <= |t|
    ensures FirstMatch(rs, t, i).None? <==> forall r :: r in rs ==> MatchAt(r, t, i).None?
  {
    if rs != [] {
      FirstMatchNone(rs[1..], t, i);
      assert forall r :: r in rs <==> r == rs[0] || r in rs[1..];
    }
  }

  /** The rule the split pattern reports at a position is the first, in declaration
      order, that matches there. */
  lemma SplitMatchIsFirst(t: string, i: nat)
    requires i <= |t| && SplitMatchAt(t, i).Some?
    ensures forall r :: RuleIndex(r) < RuleIndex(SplitMatchAt(t, i).value.0) ==> MatchAt(r, t, i).None?
  {
    SplitMatchCases(t, i);
  }

  /** The split pattern reports no match at a position exactly when no rule matches there. */
  lemma SplitMatchNone(t: string, i: nat)
    requires i <= |t|
    ensures SplitMatchAt(t, i).None? <==> forall r :: MatchAt(r, t, i).None?
  {
    FirstMatchNone(Rules, t, i);
    forall r
      ensures r in Rules
    {
      assert Rules[RuleIndex(r)] == r;
    }
  }

  // ---------------------------------------------------------------------------------------
  // Splitting

  /** Concatenation of strings: `Array.prototype.join('')`. */
  function Concat(ss: seq<string>): (r: string)
    ensures ss == [] ==> r == []
  {
    if ss == [] then [] else ss[0] + Concat(ss[1..])
  }

  lemma {:induction false} ConcatAppend(a: seq<string>, b: seq<string>)
    ensures Concat(a + b) == Concat(a) + Concat(b)
    decreases |a|
  {
    if a == [] {
      assert a + b == b;
    } else {
      assert (a + b)[1..] == a[1..] + b;
      ConcatAppend(a[1..], b);
    }
  }

  /** `String.prototype.split(SPLIT_PATTERN)`, continuing a literal that began at `p` with
      a search at `q`: where the pattern matches, the literal so far and the match are cut
      off (the pattern has one capturing group, around the whole alternation, so the match
      itself is the one captured piece) and splitting resumes after the match. */
  function SplitFrom(t: string, p: nat, q: nat): (segs: seq<string>)
    requires p <= q <= |t|
    ensures |segs| % 2 == 1
    ensures Concat(segs) == t[p..]
    decreases |t| - q
  {
    if q == |t| then
      assert Concat([t[p..]]) == t[p..] + Concat([]);
      [t[p..]]
    else
      match SplitMatchAt(t, q)
      case None => SplitFrom(t, p, q + 1)
      case Some((_, e)) =>
        var rest := SplitFrom(t, e, e);
        ConcatAppend([t[p..q], t[q..e]], rest);
        assert Concat([t[p..q], t[q..e]]) == t[p..q] + (t[q..e] + Concat([]));
        assert t[p..q] + t[q..e] + t[e..] == t[p..];
        [t[p..q], t[q..e]] + rest
  }

  /** The split of a whole text: literal, token, literal, …, literal. Joining the pieces
      gives back the text, character for character. */
  function Split(t: string): (segs: seq<string>)
    ensures |segs| % 2 == 1
    ensures Concat(segs) == t
  {
    SplitFrom(t, 0, 0)
  }

  /** Segment `s` at position `a` of `t` is a whole match of the split pattern there. */
  predicate TokenAt(t: string, a: nat, s: string) {
    a + |s| <= |t| && t[a..a + |s|] == s &&
    SplitMatchAt(t, a).Some? && SplitMatchAt(t, a).value.1 == a + |s|
  }

  /** No match of the split pattern starts anywhere in `[lo, hi)`. */
  predicate NoMatchIn(t: string, lo: nat, hi: nat)
    requires hi <= |t|
  {
    forall k :: lo <= k < hi ==> SplitMatchAt(t, k).None?
  }

  /** Segment `s`, placed at `a` in `t`, is what the split promises: a whole match of the
      split pattern (a token), or a stretch where no match starts (a literal). */
  predicate SegmentFits(t: string, a: nat, s: string, token: bool) {
    if token then TokenAt(t, a, s)
    else a + |s| <= |t| && NoMatchIn(t, a, a + |s|)
  }

  /** The segments, placed one after another from position `a`, alternate between literals
      and tokens, starting with a token when `token` holds. */
  predicate Alternates(t: string, a: nat, segs: seq<string>, token: bool)
    decreases |segs|
  {
    segs == [] ||
    (SegmentFits(t, a, segs[0], token) && Alternates(t, a + |segs[0]|, segs[1..], !token))
  }

  /** A literal followed by a token, both fitting their places, extends an alternation. */
  lemma AlternatesPair(t: string, a: nat, b: nat, c: nat, lit: string, tok: string, rest: seq<string>)
    requires b == a + |lit| && c == b + |tok| && b <= |t|
    requires NoMatchIn(t, a, b)
    requires TokenAt(t, b, tok)
    requires Alternates(t, c, rest, false)
    ensures Alternates(t, a, [lit, tok] + rest, false)
  {
    var tail := [tok] + rest;
    assert tail[0] == tok && tail[1..] == rest;
    assert SegmentFits(t, b, tok, true);
    assert Alternates(t, b, tail, true);
    var segs := [lit] + tail;
    assert segs[0] == lit && segs[1..] == tail;
    assert SegmentFits(t, a, lit, false);
    assert [lit, tok] + rest == segs;
  }

  lemma {:induction false} SplitFromShape(t: string, p: nat, q: nat)
    requires p <= q <= |t|
    requires NoMatchIn(t, p, q)
    ensures Alternates(t, p, SplitFrom(t, p, q), false)
    decreases |t| - q
  {
    if q == |t| {
      var segs := SplitFrom(t, p, q);
      assert segs == [t[p..]];
      assert segs[1..] == [];
    } else if SplitMatchAt(t, q).None? {
      assert NoMatchIn(t, p, q + 1);
      SplitFromShape(t, p, q + 1);
    } else {
      var e := SplitMatchAt(t, q).value.1;
      SplitFromShape(t, e, e);
      var lit, tok := t[p..q], t[q..e];
      assert TokenAt(t, q, tok);
      AlternatesPair(t, p, q, e, lit, tok, SplitFrom(t, e, e));
      assert SplitFrom(t, p, q) == [lit, tok] + SplitFrom(t, e, e);
    }
  }

  /** The split alternates exactly as the single capturing group promises: literal, token,
      literal, …, literal, where each token is a whole match of the split pattern at its
      place in the text and no match starts anywhere inside a literal. */
  lemma SplitAlternates(t: string)
    ensures Alternates(t, 0, Split(t), false)
  {
    SplitFromShape(t, 0, 0);
  }

  // ---------------------------------------------------------------------------------------
  // replaceSingle

  /** The leftmost match of rule `r` in `t` at or after `i`: `String.prototype.match` with
      a pattern that has no `g` flag. */
  function Search(r: Rule, t: string, i: nat): (m: Option<(nat, nat)>)
    requires i <= |t|
    ensures m.Some? ==> i <= m.value.0 < m.value.1 <= |t| &&
                        MatchAt(r, t, m.value.0) == Some(m.value.1)
    ensures m.Some? ==> forall k :: i <= k < m.value.0 ==> MatchAt(r, t, k).None?
    ensures m.None? ==> forall k :: i <= k <= |t| ==> MatchAt(r, t, k).None?
    decreases |t| - i
  {
    if i == |t| then None
    else match MatchAt(r, t, i)
      case Some(e) => Some((i, e))
      case None => Search(r, t, i + 1)
  }

  /** What a segment becomes: left as text, or a link with its target and its text. */
  datatype Piece = Literal(text: string) | Link(href: string, text: string)

  /** The HTML a piece contributes; neither the target nor the text is escaped. */
  function Html(piece: Piece): string {
    match piece
    case Literal(s) => s
    case Link(href, s) => "<a href=\"" + href + "\">" + s + "</a>"
  }

  /** `replaceSingle` over the rules `rs`: the first rule whose pattern occurs anywhere in
      the segment makes it a link. The link's target is the segment with that occurrence
      (the leftmost one) replaced by the handler's output for it; its text is the segment. */
  function ReplaceWith(rs: seq<Rule>, seg: string): (piece: Piece)
    ensures piece.text == seg
  {
    if rs == [] then Literal(seg)
    else match Search(rs[0], seg, 0)
      case Some((s, e)) => Link(seg[..s] + Destination(rs[0], seg[s..e]) + seg[e..], seg)
      case None => ReplaceWith(rs[1..], seg)
  }

  /** A segment in which no rule matches anywhere (the empty segment among them) is returned
      unchanged; a segment in which some rule matches becomes a link. */
  lemma {:induction false} ReplaceWithLiteral(rs: seq<Rule>, seg: string)
    ensures ReplaceWith(rs, seg).Literal? <==>
            forall r, k :: r in rs && 0 <= k <= |seg| ==> MatchAt(r, seg, k).None?
  {
    if rs != [] {
      ReplaceWithLiteral(rs[1..], seg);
      assert forall r :: r in rs ==> r == rs[0] || r in rs[1..];
    }
  }

  /** `replaceSingle`: the loop over `PATTERNS` returns at the first pattern found in the
      segment. */
  method ReplaceSingle(text: string) returns (piece: Piece)
    ensures piece == ReplaceWith(Rules, text)
    ensures piece.text == text
  {
    for i := 0 to |Rules|
      invariant ReplaceWith(Rules[i..], text) == ReplaceWith(Rules, text)
    {
      assert Rules[i..][1..] == Rules[i + 1..];
      var m := Search(Rules[i], text, 0);
      if m.Some? {
        var (s, e) := m.value;
        return Link(text[..s] + Destination(Rules[i], text[s..e]) + text[e..], text);
      }
    }
    assert Rules[|Rules|..] == [];
    return Literal(text);
  }

  /** `map` over the segments. */
  function MapPieces(classify: string -> Piece, segs: seq<string>): (pieces: seq<Piece>)
    ensures |pieces| == |segs|
    ensures forall j :: 0 <= j < |segs| ==> pieces[j] == classify(segs[j])
  {
    if segs == [] then [] else [classify(segs[0])] + MapPieces(classify, segs[1..])
  }

  /** The pieces that replace a text: `split(SPLIT_PATTERN).map(replaceSingle)`. */
  function Pieces(t: string): seq<Piece> {
    MapPieces(seg => ReplaceWith(Rules, seg), Split(t))
  }

  /** `.join('')` of the pieces' HTML. */
  function Render(pieces: seq<Piece>): string {
    if pieces == [] then [] else Html(pieces[0]) + Render(pieces[1..])
  }

  /** The text a browser shows for rendered pieces: link markup stripped. */
  function TextOf(pieces: seq<Piece>): string {
    if pieces == [] then [] else pieces[0].text + TextOf(pieces[1..])
  }

  /** The number of links among the pieces: the child elements the new HTML creates. */
  function LinkCount(pieces: seq<Piece>): (n: nat)
    ensures n <= |pieces|
  {
    if pieces == [] then 0 else (if pieces[0].Link? then 1 else 0) + LinkCount(pieces[1..])
  }

  /** The HTML that replaces a text. */
  function Decorate(t: string): string {
    Render(Pieces(t))
  }

  lemma {:induction false} TextOfMapPieces(classify: string -> Piece, segs: seq<string>)
    requires forall s :: classify(s).text == s
    ensures TextOf(MapPieces(classify, segs)) == Concat(segs)
  {
    if segs != [] {
      TextOfMapPieces(classify, segs[1..]);
    }
  }

  /** Stripping the links from the decorated text gives back the original text: no
      character is lost, duplicated or moved. */
  lemma DecorateKeepsText(t: string)
    ensures TextOf(Pieces(t)) == t
  {
    TextOfMapPieces(seg => ReplaceWith(Rules, seg), Split(t));
  }

  lemma {:induction false} SplitFromNoMatch(t: string, p: nat, q: nat)
    requires p <= q <= |t|
    requires NoMatchIn(t, q, |t|)
    ensures SplitFrom(t, p, q) == [t[p..]]
    decreases |t| - q
  {
    if q < |t| {
      SplitFromNoMatch(t, p, q + 1);
    }
  }

  /** A text in which no recogniser matches anywhere is left exactly as it was. */
  lemma PlainTextUnchanged(t: string)
    requires forall r, k :: r in Rules && 0 <= k <= |t| ==> MatchAt(r, t, k).None?
    ensures Pieces(t) == [Literal(t)]
    ensures Decorate(t) == t
  {
    var segs := Split(t);
    forall k | 0 <= k < |t|
      ensures SplitMatchAt(t, k).None?
    {
      SplitMatchNone(t, k);
      forall r
        ensures MatchAt(r, t, k).None?
      {
        assert Rules[RuleIndex(r)] == r;
      }
    }
    assert segs == SplitFrom(t, 0, 0);
    SplitFromNoMatch(t, 0, 0);
    ReplaceWithLiteral(Rules, t);
    assert Render([Literal(t)]) == t + Render([]);
  }

  /** "D1234567" is both a Phabricator name and eight hexadecimal digits; the rule declared
      first decides the link. */
  lemma FirstRuleWins(t: string)
    requires t == "D1234567"
    ensures MatchAt(TicketHash, t, 0) == Some(8)
    ensures ReplaceWith(Rules, t) == Link("https://p.daedalean.ai/D1234567", t)
  {
    assert RunEnd(t, 8, IsDigit) == 8;
    assert RunEnd(t, 1, IsDigit) == 8;
    assert MatchAt(Phabricator, t, 0) == Some(8);
    assert RunEnd(t, 8, IsHexDigit) == 8;
    assert RunEnd(t, 0, IsHexDigit) == 8;
    assert Search(Phabricator, t, 0) == Some((0, 8));
    assert t[..0] + Destination(Phabricator, t[0..8]) + t[8..] == "https://p.daedalean.ai/D1234567";
  }

  lemma {:induction false} SplitFromSkip(t: string, p: nat, q: nat, r: nat)
    requires p <= q <= r <= |t| && NoMatchIn(t, q, r)
    ensures SplitFrom(t, p, q) == SplitFrom(t, p, r)
    decreases r - q
  {
    if q < r {
      assert SplitMatchAt(t, q).None?;
      assert SplitFrom(t, p, q) == SplitFrom(t, p, q + 1);
      assert NoMatchIn(t, q + 1, r);
      SplitFromSkip(t, p, q + 1, r);
    }
  }

  /** No pattern can start at a character that is not a word character or that follows
      one. */
  lemma NoMatchInsideWord(t: string, k: nat)
    requires k < |t| && (!IsWordChar(t[k]) || WordAt(t, k - 1))
    ensures SplitMatchAt(t, k).None?
  {
  }

  /** A word that starts with neither `T` nor `D`, has fewer than seven leading hexadecimal
      digits and none of the prefixes `exp-`, `prod-`, `http://`, `https://` is not
      matched. */
  lemma NoMatchAtPlainWord(t: string, k: nat)
    requires k < |t| && t[k] != 'T' && t[k] != 'D'
    requires RunEnd(t, k, IsHexDigit) < k + 7
    requires RepoBodyStart(t, k).None? && UrlBodyStart(t, k).None?
    ensures SplitMatchAt(t, k).None?
  {
  }

  /** A word that starts with `c` followed by `d` cannot be a token: it starts with neither
      `T` nor `D` nor the first letters of `exp-`, `prod-` or `http`, and it does not open
      with seven hexadecimal digits. */
  predicate PlainWordStart(c: char, d: char) {
    c != 'T' && c != 'D' && c != 'e' && c != 'h' && (c == 'p' ==> d != 'r') &&
    (!IsHexDigit(c) || !IsHexDigit(d))
  }

  lemma NoMatchAtShortWord(t: string, k: nat)
    requires k + 1 < |t| && PlainWordStart(t[k], t[k + 1])
    ensures SplitMatchAt(t, k).None?
  {
    if IsHexDigit(t[k]) {
      assert RunEnd(t, k + 1, IsHexDigit) == k + 1;
    }
    assert RunEnd(t, k, IsHexDigit) <= k + 1;
    var w := t[k..];
    assert w[0] == t[k] && w[1] == t[k + 1];
    NoMatchAtPlainWord(t, k);
  }

  /** The character of the literal `lit` at position `k` is outside a word, inside a word,
      or at the start of a word that no recogniser accepts. */
  predicate QuietAt(lit: string, k: nat)
    requires k < |lit|
  {
    !IsWordChar(lit[k]) || (k > 0 && IsWordChar(lit[k - 1])) ||
    (k + 1 < |lit| && PlainWordStart(lit[k], lit[k + 1]))
  }

  /** Every character of `lit` from position `k` on is quiet. */
  predicate QuietFrom(lit: string, k: nat)
    decreases |lit| - k
  {
    k >= |lit| || (QuietAt(lit, k) && QuietFrom(lit, k + 1))
  }

  /** Position `a + i` of `t` holds the `i`-th character of the piece placed at `a`. */
  lemma CharOf(t: string, a: nat, piece: string, i: nat)
    requires a + |piece| <= |t| && t[a..a + |piece|] == piece && i < |piece|
    ensures t[a + i] == piece[i]
  {
  }

  /** No match of the split pattern starts at a quiet character of a literal. */
  lemma QuietNoMatchAt(t: string, a: nat, lit: string, k: nat)
    requires a + |lit| <= |t| && t[a..a + |lit|] == lit && k < |lit| && QuietAt(lit, k)
    ensures SplitMatchAt(t, a + k).None?
  {
    CharOf(t, a, lit, k);
    if !IsWordChar(lit[k]) {
      NoMatchInsideWord(t, a + k);
    } else if k > 0 && IsWordChar(lit[k - 1]) {
      CharOf(t, a, lit, k - 1);
      NoMatchInsideWord(t, a + k);
    } else {
      CharOf(t, a, lit, k + 1);
      NoMatchAtShortWord(t, a + k);
    }
  }

  /** No match of the split pattern starts inside a quiet literal, wherever it stands. */
  lemma {:induction false} QuietNoMatch(t: string, a: nat, lit: string, k: nat)
    requires a + |lit| <= |t| && t[a..a + |lit|] == lit && QuietFrom(lit, k)
    ensures NoMatchIn(t, a + k, a + |lit|)
    decreases |lit| - k
  {
    if k < |lit| {
      QuietNoMatch(t, a, lit, k + 1);
      QuietNoMatchAt(t, a, lit, k);
    }
  }

  /** A quiet literal taken on its own stays text. */
  lemma QuietSegment(seg: string)
    requires QuietFrom(seg, 0)
    ensures ReplaceWith(Rules, seg) == Literal(seg)
  {
    assert seg[0..|seg|] == seg;
    QuietNoMatch(seg, 0, seg, 0);
    PlainSegment(seg);
  }

  /** A Phabricator name or a ticket hash that fills a delimited piece of `t` is matched at
      the same place in `t`, and ends where the piece ends. */
  lemma WholeTokenInText(r: Rule, t: string, a: nat, b: nat)
    requires r == Phabricator || r == TicketHash
    requires a < b && Delimited(t, a, b) && MatchAt(r, t[a..b], 0) == Some(b - a)
    ensures MatchAt(r, t, a) == Some(b)
  {
    MatchAtSlice(r, t, a, b);
    if r == Phabricator {
      PhabricatorSlice(t, a, b);
    } else {
      TicketHashSlice(t, a, b);
    }
  }

  /** A run of characters all satisfying `p` is consumed to the end of the string. */
  lemma {:induction false} RunToEnd(t: string, i: nat, p: char -> bool)
    requires i <= |t| && forall c :: c in t ==> p(c)
    ensures RunEnd(t, i, p) == |t|
    decreases |t| - i
  {
    if i < |t| {
      assert t[i] in t;
      RunToEnd(t, i + 1, p);
    }
  }

  /** A text with neither `T` nor `D` holds no Phabricator name. */
  lemma NoPhabricator(t: string)
    requires 'T' !in t && 'D' !in t
    ensures Search(Phabricator, t, 0).None?
  {
    forall k | 0 <= k < |t|
      ensures MatchAt(Phabricator, t, k).None?
    {
      assert t[k] in t;
    }
  }

  /** The first rule-`r` match at or after the end of a prefix in which `r` matches nowhere. */
  lemma SearchAfter(r: Rule, t: string, n: nat, e: nat)
    requires n <= |t| && MatchAt(r, t, n) == Some(e)
    requires forall k :: 0 <= k < n ==> MatchAt(r, t, k).None?
    ensures Search(r, t, 0) == Some((n, e))
  {
  }

  /** "T100" on its own is a Phabricator name. */
  lemma PhabricatorT100(s: string)
    requires s == "T100"
    ensures MatchAt(Phabricator, s, 0) == Some(4)
  {
    assert RunEnd(s, 4, IsDigit) == 4;
    assert RunEnd(s, 1, IsDigit) == 4;
  }

  /** The text of the example split into its parts: three literals and two tokens. */
  predicate ExampleParts(t: string) {
    |t| == 38 && t[..4] == "see " && t[4..8] == "T100" && t[8..18] == " and also " &&
    t[18..31] == "abcdef0123456" && t[31..] == " please"
  }

  lemma ExampleSlices(t: string)
    requires t == "see " + "T100" + " and also " + "abcdef0123456" + " please"
    ensures ExampleParts(t)
  {
    FiveParts(t, "see ", "T100", " and also ", "abcdef0123456", " please");
  }

  /** Cutting a concatenation of five parts back into those parts. */
  lemma FiveParts(t: string, a: string, b: string, c: string, d: string, e: string)
    requires t == a + b + c + d + e
    ensures t[..|a|] == a && t[|a|..|a| + |b|] == b
    ensures t[|a| + |b|..|a| + |b| + |c|] == c
    ensures t[|a| + |b| + |c|..|a| + |b| + |c| + |d|] == d
    ensures t[|a| + |b| + |c| + |d|..] == e
  {
  }

  lemma ExampleLiterals(t: string)
    requires ExampleParts(t)
    ensures NoMatchIn(t, 0, 4) && NoMatchIn(t, 8, 18) && NoMatchIn(t, 31, 38)
  {
    assert t[0..4] == "see ";
    assert t[31..38] == " please";
    ExampleLiteralsQuiet();
    QuietNoMatch(t, 0, "see ", 0);
    QuietNoMatch(t, 8, " and also ", 0);
    QuietNoMatch(t, 31, " please", 0);
  }

  lemma ExampleId(t: string)
    requires ExampleParts(t)
    ensures SplitMatchAt(t, 4) == Some((Phabricator, 8))
  {
    assert t[0..4] == "see ";
    CharOf(t, 0, "see ", 3);
    CharOf(t, 8, " and also ", 0);
    PhabricatorT100(t[4..8]);
    WholeTokenInText(Phabricator, t, 4, 8);
  }

  lemma ExampleHash(t: string)
    requires ExampleParts(t)
    ensures SplitMatchAt(t, 18) == Some((TicketHash, 31))
  {
    CharOf(t, 8, " and also ", 9);
    assert t[31..38] == " please";
    CharOf(t, 31, " please", 0);
    HashAbcdefChars(t[18..31]);
    HashAlone(t[18..31]);
    CharOf(t, 18, "abcdef0123456", 0);
    assert MatchAt(Phabricator, t, 18).None?;
    WholeTokenInText(TicketHash, t, 18, 31);
    SplitMatchCases(t, 18);
  }

  /** The text "see T100 and also abcdef0123456 please" splits into its three literals and
      two tokens, in order. */
  lemma ExampleSplit(t: string)
    requires t == "see " + "T100" + " and also " + "abcdef0123456" + " please"
    ensures Split(t) == ["see ", "T100", " and also ", "abcdef0123456", " please"]
  {
    ExampleSlices(t);
    ExampleFromEight(t);
    ExampleLiterals(t);
    ExampleId(t);
    SplitFromSkip(t, 0, 0, 4);
    assert SplitFrom(t, 0, 4) == [t[0..4], t[4..8]] + SplitFrom(t, 8, 8);
    assert t[0..4] == "see ";
  }

  lemma ExampleFromEight(t: string)
    requires ExampleParts(t)
    ensures SplitFrom(t, 8, 8) == [" and also ", "abcdef0123456", " please"]
  {
    ExampleFromThirtyOne(t);
    ExampleLiterals(t);
    ExampleHash(t);
    SplitFromSkip(t, 8, 8, 18);
    assert SplitFrom(t, 8, 18) == [t[8..18], t[18..31]] + SplitFrom(t, 31, 31);
  }

  lemma ExampleFromThirtyOne(t: string)
    requires ExampleParts(t)
    ensures SplitFrom(t, 31, 31) == [" please"]
  {
    ExampleLiterals(t);
    SplitFromSkip(t, 31, 31, 38);
    assert SplitFrom(t, 31, 38) == [t[31..]];
  }

  /** A segment in which the split pattern matches nowhere stays text. */
  lemma PlainSegment(seg: string)
    requires NoMatchIn(seg, 0, |seg|)
    ensures ReplaceWith(Rules, seg) == Literal(seg)
  {
    forall r, k | r in Rules && 0 <= k <= |seg|
      ensures MatchAt(r, seg, k).None?
    {
      if k < |seg| {
        SplitMatchNone(seg, k);
      }
    }
    ReplaceWithLiteral(Rules, seg);
  }

  lemma ExampleIdLinked(seg: string)
    requires seg == "T100"
    ensures ReplaceWith(Rules, seg) == Link("https://p.daedalean.ai/T100", seg)
  {
    PhabricatorT100(seg);
    assert Search(Phabricator, seg, 0) == Some((0, 4));
    assert seg[..0] + Destination(Phabricator, seg[0..4]) + seg[4..] == "https://p.daedalean.ai/" + seg;
  }

  /** 7 to 64 hexadecimal digits, taken on their own, are a ticket hash. */
  lemma HashAlone(seg: string)
    requires 7 <= |seg| <= 64 && forall c :: c in seg ==> IsHexDigit(c)
    ensures MatchAt(TicketHash, seg, 0) == Some(|seg|)
  {
    RunToEnd(seg, 0, IsHexDigit);
    assert seg[0] in seg && seg[|seg| - 1] in seg;
  }

  lemma HashTarget(s: string)
    requires s == "abcdef0123456"
    ensures "/ticket/" + s == "/ticket/abcdef0123456"
  {
  }

  lemma HashAbcdefChars(s: string)
    requires s == "abcdef0123456"
    ensures |s| == 13 && 'T' !in s && 'D' !in s && forall c :: c in s ==> IsHexDigit(c)
  {
  }

  /** A segment of 7 to 64 hexadecimal digits, none of them `D`, is linked to its ticket
      page. */
  lemma TicketHashLinked(seg: string)
    requires 7 <= |seg| <= 64 && 'D' !in seg && forall c :: c in seg ==> IsHexDigit(c)
    ensures ReplaceWith(Rules, seg) == Link("/ticket/" + seg, seg)
  {
    assert !IsHexDigit('T');
    NoPhabricator(seg);
    HashAlone(seg);
    SearchAfter(TicketHash, seg, 0, |seg|);
    SecondRuleLinks(seg, 0, |seg|);
    WholeReplaced(seg, "/ticket/");
  }

  /** A segment with no Phabricator name is linked by its first ticket hash. */
  lemma SecondRuleLinks(seg: string, s: nat, e: nat)
    requires Search(Phabricator, seg, 0).None? && Search(TicketHash, seg, 0) == Some((s, e))
    ensures ReplaceWith(Rules, seg) == Link(seg[..s] + Destination(TicketHash, seg[s..e]) + seg[e..], seg)
  {
    assert Rules[0] == Phabricator && Rules[1..][0] == TicketHash;
  }

  /** Replacing the whole of a segment by a target that ends with it. */
  lemma WholeReplaced(seg: string, x: string)
    ensures seg[..0] + (x + seg[0..|seg|]) + seg[|seg|..] == x + seg
  {
    assert seg[..0] == [] && seg[0..|seg|] == seg && seg[|seg|..] == [];
  }

  /** "see T100 and also abcdef0123456 please" keeps its three literals as they are and
      links "T100" and "abcdef0123456", each to its own rule's target, in order. */
  lemma ExampleDecorated(t: string)
    requires t == "see " + "T100" + " and also " + "abcdef0123456" + " please"
    ensures |Pieces(t)| == 5
    ensures Pieces(t)[0] == Literal("see ")
    ensures Pieces(t)[1] == Link("https://p.daedalean.ai/T100", "T100")
    ensures Pieces(t)[2] == Literal(" and also ")
    ensures Pieces(t)[3] == Link("/ticket/abcdef0123456", "abcdef0123456")
    ensures Pieces(t)[4] == Literal(" please")
  {
    var segs := Split(t);
    ExampleSplit(t);
    ExampleLiteralSegments(segs[0], segs[2], segs[4]);
    ExampleIdLinked(segs[1]);
    HashAbcdefChars(segs[3]);
    TicketHashLinked(segs[3]);
    HashTarget(segs[3]);
  }

  lemma ExampleLiteralSegments(a: string, b: string, c: string)
    requires a == "see " && b == " and also " && c == " please"
    ensures ReplaceWith(Rules, a) == Literal(a)
    ensures ReplaceWith(Rules, b) == Literal(b)
    ensures ReplaceWith(Rules, c) == Literal(c)
  {
    ExampleLiteralsQuiet();
    QuietSegment(a);
    QuietSegment(b);
    QuietSegment(c);
  }

  lemma ExampleLiteralsQuiet()
    ensures QuietFrom("see ", 0) && QuietFrom(" and also ", 0) && QuietFrom(" please", 0)
  {
  }

  // ---------------------------------------------------------------------------------------
  // A token seen on its own

  /** A piece of `t` that stands between non-word characters (or the ends of `t`): `\b`
      and the greedy runs see the same thing in the piece as in `t`. */
  predicate Delimited(t: string, a: nat, b: nat) {
    a <= b <= |t| && !WordAt(t, a - 1) && !WordAt(t, b)
  }

  lemma BoundarySlice(t: string, a: nat, b: nat, k: nat)
    requires Delimited(t, a, b) && k <= b - a
    ensures Boundary(t[a..b], k) == Boundary(t, a + k)
  {
    var s := t[a..b];
    assert WordAt(s, k - 1) == WordAt(t, a + k - 1);
    assert WordAt(s, k) == WordAt(t, a + k);
  }

  lemma {:induction false} RunEndSlice(t: string, a: nat, b: nat, k: nat, p: char -> bool)
    requires a <= b <= |t| && k <= b - a
    ensures RunEnd(t[a..b], k, p) ==
            (if RunEnd(t, a + k, p) <= b then RunEnd(t, a + k, p) else b) - a
    decreases b - a - k
  {
    if k < b - a && p(t[a + k]) {
      RunEndSlice(t, a, b, k + 1, p);
    }
  }

  lemma PrefixSlice(t: string, a: nat, b: nat, k: nat, w: string)
    requires a + k <= b <= |t|
    ensures HasPrefix(t[a..b][k..], w) ==> HasPrefix(t[a + k..], w)
    ensures a + k + |w| <= b && HasPrefix(t[a + k..], w) ==> HasPrefix(t[a..b][k..], w)
  {
    if |w| <= b - a - k {
      assert t[a..b][k..][..|w|] == t[a + k..][..|w|];
    }
  }

  lemma RepoBodySlice(t: string, a: nat, b: nat)
    requires a <= b <= |t|
    ensures RepoBodyStart(t[a..b], 0).Some? ==> RepoBodyStart(t, a) == Some(a + RepoBodyStart(t[a..b], 0).value)
    ensures RepoBodyStart(t, a).Some? && RepoBodyStart(t, a).value <= b ==>
              RepoBodyStart(t[a..b], 0) == Some(RepoBodyStart(t, a).value - a)
  {
    var s := t[a..b];
    assert s[0..] == s;
    PrefixSlice(t, a, b, 0, "exp-");
    PrefixSlice(t, a, b, 0, "prod-");
    if HasPrefix(t[a..], "exp-") {
      assert t[a] == 'e';
    }
    if HasPrefix(s, "prod-") {
      assert s[0] == 'p' && t[a] == 'p';
    }
  }

  lemma UrlBodySlice(t: string, a: nat, b: nat)
    requires a <= b <= |t|
    ensures UrlBodyStart(t[a..b], 0).Some? ==> UrlBodyStart(t, a) == Some(a + UrlBodyStart(t[a..b], 0).value)
    ensures UrlBodyStart(t, a).Some? && UrlBodyStart(t, a).value <= b ==>
              UrlBodyStart(t[a..b], 0) == Some(UrlBodyStart(t, a).value - a)
  {
    var s := t[a..b];
    assert s[0..] == s;
    PrefixSlice(t, a, b, 0, "https://");
    PrefixSlice(t, a, b, 0, "http://");
    if HasPrefix(s, "http://") {
      assert s[4] == ':' && t[a + 4] == ':';
    }
    if HasPrefix(t[a..], "http://") && a + 7 <= b {
      assert s[4] == ':';
    }
  }

  lemma PhabricatorSlice(t: string, a: nat, b: nat)
    requires a < b && Delimited(t, a, b)
    ensures PhabricatorEnd(t[a..b], 0) == Some(b - a) <==> PhabricatorEnd(t, a) == Some(b)
  {
    assert t[a..b][0] == t[a];
    BoundarySlice(t, a, b, b - a);
    RunEndSlice(t, a, b, 1, IsDigit);
  }

  lemma TicketHashSlice(t: string, a: nat, b: nat)
    requires a < b && Delimited(t, a, b)
    ensures TicketHashEnd(t[a..b], 0) == Some(b - a) <==> TicketHashEnd(t, a) == Some(b)
  {
    BoundarySlice(t, a, b, b - a);
    RunEndSlice(t, a, b, 0, IsHexDigit);
  }

  lemma GiteaRepoSlice(t: string, a: nat, b: nat)
    requires a < b && Delimited(t, a, b)
    ensures GiteaRepoEnd(t[a..b], 0) == Some(b - a) ==> GiteaRepoEnd(t, a).Some?
    ensures GiteaRepoEnd(t, a) == Some(b) ==> GiteaRepoEnd(t[a..b], 0) == Some(b - a)
  {
    var s := t[a..b];
    BoundarySlice(t, a, b, b - a);
    RepoBodySlice(t, a, b);
    if GiteaRepoEnd(s, 0) == Some(b - a) {
      var p := RepoBodyStart(s, 0).value;
      RunEndSlice(t, a, b, p, IsRepoChar);
      var e := RunEnd(t, a + p, IsRepoChar);
      assert a + p < b <= e;
      assert Boundary(t, b);
    }
    if GiteaRepoEnd(t, a) == Some(b) {
      var p := RepoBodyStart(t, a).value;
      RunEndSlice(t, a, b, p - a, IsRepoChar);
      assert Boundary(s, b - a);
    }
  }

  lemma UrlSlice(t: string, a: nat, b: nat)
    requires a < b && Delimited(t, a, b)
    ensures UrlEnd(t[a..b], 0) == Some(b - a) ==> UrlEnd(t, a).Some?
    ensures UrlEnd(t, a) == Some(b) ==> UrlEnd(t[a..b], 0) == Some(b - a)
  {
    UrlBodySlice(t, a, b);
    if UrlEnd(t[a..b], 0) == Some(b - a) {
      RunEndSlice(t, a, b, UrlBodyStart(t[a..b], 0).value, IsNonSpace);
    }
    if UrlEnd(t, a) == Some(b) {
      RunEndSlice(t, a, b, UrlBodyStart(t, a).value - a, IsNonSpace);
    }
  }

  /** Rule `r` tried at the start of a delimited piece taken on its own, and at the same
      place in `t`, passes or fails the opening `\b` and word character alike. */
  lemma MatchAtSlice(r: Rule, t: string, a: nat, b: nat)
    requires a < b && Delimited(t, a, b)
    ensures MatchAt(r, t[a..b], 0) == (if IsWordChar(t[a]) then
      match r
      case Phabricator => PhabricatorEnd(t[a..b], 0)
      case TicketHash => TicketHashEnd(t[a..b], 0)
      case GiteaRepo => GiteaRepoEnd(t[a..b], 0)
      case Url => UrlEnd(t[a..b], 0)
      else None)
    ensures MatchAt(r, t, a) == (if IsWordChar(t[a]) then
      match r
      case Phabricator => PhabricatorEnd(t, a)
      case TicketHash => TicketHashEnd(t, a)
      case GiteaRepo => GiteaRepoEnd(t, a)
      case Url => UrlEnd(t, a)
      else None)
  {
    assert t[a..b][0] == t[a];
  }

  /** A rule that matches a delimited piece of `t` from its start to its end, the piece
      taken on its own, also matches `t` at the piece's start. */
  lemma WholeInPieceMatchesInText(r: Rule, t: string, a: nat, b: nat)
    requires a < b && Delimited(t, a, b)
    requires MatchAt(r, t[a..b], 0) == Some(b - a)
    ensures MatchAt(r, t, a).Some?
  {
    MatchAtSlice(r, t, a, b);
    match r
    case Phabricator => PhabricatorSlice(t, a, b);
    case TicketHash => TicketHashSlice(t, a, b);
    case GiteaRepo => GiteaRepoSlice(t, a, b);
    case Url => UrlSlice(t, a, b);
  }

  /** A rule's match in `t` that no word character follows, taken on its own, is matched
      by the same rule from its start to its end. */
  lemma MatchInTextWholeInPiece(r: Rule, t: string, a: nat, b: nat)
    requires a <= |t| && MatchAt(r, t, a) == Some(b) && !WordAt(t, b)
    ensures MatchAt(r, t[a..b], 0) == Some(b - a)
  {
    assert Delimited(t, a, b);
    MatchAtSlice(r, t, a, b);
    match r
    case Phabricator => PhabricatorSlice(t, a, b);
    case TicketHash => TicketHashSlice(t, a, b);
    case GiteaRepo => GiteaRepoSlice(t, a, b);
    case Url => UrlSlice(t, a, b);
  }

  // ---------------------------------------------------------------------------------------
  // Linking a token by the rule that matches all of it

  /** The classification a split token evidently calls for: the first rule, in declaration
      order, that matches the whole segment, with the handler's output for the whole
      segment as the target. */
  function WholeSegmentLink(rs: seq<Rule>, seg: string): (piece: Piece)
    ensures piece.text == seg
  {
    if rs == [] then Literal(seg)
    else if MatchAt(rs[0], seg, 0) == Some(|seg|) then Link(Destination(rs[0], seg), seg)
    else WholeSegmentLink(rs[1..], seg)
  }

  /** The pieces with every segment classified as a whole. */
  function CorrectedPieces(t: string): seq<Piece> {
    MapPieces(seg => WholeSegmentLink(Rules, seg), Split(t))
  }

  /** The pieces `ddlnXref` writes (`asWritten`), or the corrected ones. */
  function PiecesFor(t: string, asWritten: bool): (pieces: seq<Piece>)
    ensures TextOf(pieces) == t
  {
    if asWritten then
      DecorateKeepsText(t);
      Pieces(t)
    else
      TextOfMapPieces(seg => WholeSegmentLink(Rules, seg), Split(t));
      CorrectedPieces(t)
  }

  /** With whole-segment classification, every token the split finds (unless a word
      character follows it directly, which only a repository name ending in `-` allows) is
      linked to the target its own rule gives for the whole token: the rule `r` the split
      pattern reports at the token's start. */
  lemma CorrectedLinksToken(t: string, a: nat, r: Rule, s: string)
    requires a + |s| <= |t| && t[a..a + |s|] == s && SplitMatchAt(t, a) == Some((r, a + |s|))
    requires !WordAt(t, a + |s|)
    ensures WholeSegmentLink(Rules, s) == Link(Destination(r, s), s)
  {
    SplitMatchIsFirst(t, a);
    EarlierRulesMissPiece(t, a, r, s);
    WholeSegmentLinkFirst(Rules, RuleIndex(r), s);
  }

  /** A rule that matches a delimited piece of `t` exactly, with no earlier rule matching
      at the piece's start in `t`, is also the first rule matching the piece on its own. */
  lemma EarlierRulesMissPiece(t: string, a: nat, r: Rule, s: string)
    requires a + |s| <= |t| && t[a..a + |s|] == s
    requires MatchAt(r, t, a) == Some(a + |s|) && !WordAt(t, a + |s|)
    requires forall q :: RuleIndex(q) < RuleIndex(r) ==> MatchAt(q, t, a).None?
    ensures MatchAt(Rules[RuleIndex(r)], s, 0) == Some(|s|)
    ensures forall j :: 0 <= j < RuleIndex(r) ==> MatchAt(Rules[j], s, 0) != Some(|s|)
  {
    MatchInTextWholeInPiece(r, t, a, a + |s|);
    forall j | 0 <= j < RuleIndex(r)
      ensures MatchAt(Rules[j], s, 0) != Some(|s|)
    {
      assert RuleIndex(Rules[j]) == j;
      RuleMissesPiece(t, a, Rules[j], s);
    }
  }

  /** A rule that does not match at the start of a delimited piece of `t` does not match
      the whole piece on its own either. */
  lemma RuleMissesPiece(t: string, a: nat, q: Rule, s: string)
    requires a < a + |s| <= |t| && t[a..a + |s|] == s && Delimited(t, a, a + |s|)
    requires MatchAt(q, t, a).None?
    ensures MatchAt(q, s, 0) != Some(|s|)
  {
    if MatchAt(q, s, 0) == Some(|s|) {
      WholeInPieceMatchesInText(q, t, a, a + |s|);
    }
  }

  /** The first rule that matches a whole segment links it. */
  lemma {:induction false} WholeSegmentLinkFirst(rs: seq<Rule>, k: nat, s: string)
    requires k < |rs| && MatchAt(rs[k], s, 0) == Some(|s|)
    requires forall j :: 0 <= j < k ==> MatchAt(rs[j], s, 0) != Some(|s|)
    ensures WholeSegmentLink(rs, s) == Link(Destination(rs[k], s), s)
  {
    if k > 0 {
      assert MatchAt(rs[0], s, 0) != Some(|s|);
      WholeSegmentLinkFirst(rs[1..], k - 1, s);
    }
  }

  /** A text that is exactly one token is split into that token between two empty
      literals. */
  lemma SingleTokenSplit(t: string)
    requires SplitMatchAt(t, 0).Some? && SplitMatchAt(t, 0).value.1 == |t|
    ensures Split(t) == ["", t, ""]
  {
    assert Split(t) == SplitFrom(t, 0, 0);
    assert SplitFrom(t, |t|, |t|) == [t[|t|..]];
    assert t[0..0] == "" && t[0..|t|] == t && t[|t|..] == "";
  }

  /** With whole-segment classification, a text that is exactly one token becomes one link
      around the whole text, to the target of the rule that recognised it. */
  lemma CorrectedSingleToken(t: string, r: Rule)
    requires SplitMatchAt(t, 0) == Some((r, |t|))
    ensures CorrectedPieces(t) == [Literal(""), Link(Destination(r, t), t), Literal("")]
  {
    SingleTokenSplit(t);
    assert t[0..|t|] == t;
    CorrectedLinksToken(t, 0, r, t);
    CorrectedThreePieces(t);
  }

  lemma CorrectedThreePieces(t: string)
    requires Split(t) == ["", t, ""]
    ensures CorrectedPieces(t) == [Literal(""), WholeSegmentLink(Rules, t), Literal("")]
  {
    var f := seg => WholeSegmentLink(Rules, seg);
    assert f("") == Literal("");
    assert MapPieces(f, ["", t, ""]) == [f(""), f(t), f("")];
  }

  /** As written, `replaceSingle` looks for each rule anywhere inside the segment and
      replaces only the occurrence: a link that contains a Phabricator name is sent to the
      link with the name inside it rewritten. */
  lemma UrlWithIdAsWritten(t: string)
    requires t == "https://x.io/" + "T1"
    ensures Pieces(t) == [Literal(""), Link("https://x.io/" + "https://p.daedalean.ai/" + "T1", t), Literal("")]
  {
    UrlExampleIsOneToken(t);
    SingleTokenSplit(t);
    UrlExampleReplaced(t);
    var f := seg => ReplaceWith(Rules, seg);
    assert f("") == Literal("");
    assert MapPieces(f, ["", t, ""]) == [f(""), f(t), f("")];
  }

  /** Classified as a whole, the same link is sent to itself. */
  lemma UrlWithIdCorrected(t: string)
    requires t == "https://x.io/" + "T1"
    ensures CorrectedPieces(t) == [Literal(""), Link(t, t), Literal("")]
  {
    UrlExampleIsOneToken(t);
    CorrectedSingleToken(t, Url);
  }

  lemma UrlExampleReplaced(t: string)
    requires t == "https://x.io/" + "T1"
    ensures ReplaceWith(Rules, t) == Link("https://x.io/" + "https://p.daedalean.ai/" + "T1", t)
  {
    UrlExampleHasId(t);
    assert t[..13] == "https://x.io/" && t[13..15] == "T1" && t[15..] == "";
  }

  lemma UrlExampleIsOneToken(t: string)
    requires t == "https://x.io/" + "T1"
    ensures SplitMatchAt(t, 0) == Some((Url, 15))
  {
    UrlExampleNotEarlier(t);
    UrlExampleIsUrl(t);
    SplitMatchCases(t, 0);
  }

  lemma UrlExampleNotEarlier(t: string)
    requires t == "https://x.io/" + "T1"
    ensures MatchAt(Phabricator, t, 0) == None
    ensures MatchAt(TicketHash, t, 0) == None
    ensures MatchAt(GiteaRepo, t, 0) == None
  {
    assert t[0] == 'h' && t[1] == 't';
    assert RunEnd(t, 0, IsHexDigit) == 0;
    assert !HasPrefix(t[0..], "exp-") by {
      assert t[0..][..4][0] == 'h';
    }
    assert !HasPrefix(t[0..], "prod-") by {
      assert t[0..][..5][0] == 'h';
    }
  }

  lemma UrlExampleIsUrl(t: string)
    requires t == "https://x.io/" + "T1"
    ensures MatchAt(Url, t, 0) == Some(15)
  {
    assert t[0..][..8] == "https://";
    UrlExampleChars(t);
    RunToEnd(t, 8, IsNonSpace);
  }

  lemma UrlExampleChars(t: string)
    requires t == "https://x.io/" + "T1"
    ensures forall c :: c in t ==> IsNonSpace(c)
  {
    forall c | c in t
      ensures IsNonSpace(c)
    {
      assert c in "https://x.io/" || c in "T1";
    }
  }

  lemma UrlExampleHasId(t: string)
    requires t == "https://x.io/" + "T1"
    ensures Search(Phabricator, t, 0) == Some((13, 15))
  {
    var u := "https://x.io/";
    assert t[..13] == u && t[13..15] == "T1" && t[15..] == "";
    CharOf(t, 0, u, 12);
    PhabricatorT1(t[13..15]);
    WholeTokenInText(Phabricator, t, 13, 15);
    forall k | 0 <= k < 13
      ensures MatchAt(Phabricator, t, k).None?
    {
      CharOf(t, 0, u, k);
      assert u[k] in u;
    }
    SearchAfter(Phabricator, t, 13, 15);
  }

  /** "T1" on its own is a Phabricator name. */
  lemma PhabricatorT1(s: string)
    requires s == "T1"
    ensures MatchAt(Phabricator, s, 0) == Some(2)
  {
    assert RunEnd(s, 2, IsDigit) == 2;
    assert RunEnd(s, 1, IsDigit) == 2;
  }

  // ---------------------------------------------------------------------------------------
  // The decorated elements

  /** An element of the page, as far as the decorator sees it. */
  class Element {
    var classes: set<string>
    var childElements: nat
    var text: string
    var html: string

    constructor (classes: set<string>, text: string)
      ensures this.classes == classes && childElements == 0
      ensures this.text == text && html == text
    {
      this.classes := classes;
      childElements := 0;
      this.text := text;
      this.html := text;
    }

    /** The element is matched by `.textClass:not(:has(*))`. */
    predicate Selected(textClass: string)
      reads this
    {
      textClass in classes && childElements == 0
    }

    /** `$(this).html(...)` with the decorated text: the element's children become the links,
        and the text it shows is the same as before. */
    method Rewrite(ghost textClass: string, asWritten: bool)
      requires Selected(textClass)
      modifies this
      ensures html == Render(PiecesFor(old(text), asWritten))
      ensures childElements == LinkCount(PiecesFor(old(text), asWritten))
      ensures text == old(text) && classes == old(classes)
    {
      var pieces := PiecesFor(text, asWritten);
      html := Render(pieces);
      childElements := LinkCount(pieces);
      text := TextOf(pieces);
    }

    /** One step of `.each`: a selected element is rewritten, any other is left alone. */
    method Visit(textClass: string, asWritten: bool)
      modifies this
      ensures DecoratedFrom(this, old(text), old(classes), old(html), old(childElements),
                            textClass, asWritten)
    {
      if Selected(textClass) {
        Rewrite(textClass, asWritten);
      }
    }
  }

  /** What `ddlnXref` leaves in an element that held `text`, `classes`, `html` and `children`
      child elements before the pass. */
  predicate DecoratedFrom(e: Element, text: string, classes: set<string>, html: string,
                          children: nat, textClass: string, asWritten: bool)
    reads e
  {
    e.text == text && e.classes == classes &&
    if textClass in classes && children == 0 then
      e.html == Render(PiecesFor(text, asWritten)) && e.childElements == LinkCount(PiecesFor(text, asWritten))
    else
      e.html == html && e.childElements == children
  }

  /** `ddlnXref(textClass)` over the elements of a page: the selected elements are decorated
      one after another; every other element, including every element with child elements,
      keeps its content exactly. */
  method DecorateElements(elements: seq<Element>, textClass: string, asWritten: bool)
    requires forall i, j :: 0 <= i < j < |elements| ==> elements[i] != elements[j]
    modifies elements
    ensures forall i :: 0 <= i < |elements| ==>
      DecoratedFrom(elements[i], old(elements[i].text), old(elements[i].classes),
                    old(elements[i].html), old(elements[i].childElements), textClass, asWritten)
  {
    for n := 0 to |elements|
      invariant forall i :: 0 <= i < n ==>
        DecoratedFrom(elements[i], old(elements[i].text), old(elements[i].classes),
                      old(elements[i].html), old(elements[i].childElements), textClass, asWritten)
      invariant forall i :: n <= i < |elements| ==> unchanged(elements[i])
    {
      elements[n].Visit(textClass, asWritten);
    }
  }
}
