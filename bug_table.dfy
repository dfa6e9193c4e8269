/** The ticket list of the terminal UI (termui/bug_table.go): the ids a query returned, the
    page of excerpts on screen, the first id of that page and the selected row, and how
    the cursor and page commands move them. The view height `max` and the excerpt lookup
    of the cache are parameters. */
module BugTables {
  import opened Wrappers
  import opened Entity
  import opened CacheExcerpts

  function MinInt(a: int, b: int): int { if a > b then b else a }
  function MaxInt(a: int, b: int): int { if a > b then a else b }

  /** Go's integer division, which truncates toward zero. */
  function GoDiv(a: int, b: int): (q: int)
    requires b > 0
    ensures a >= 0 ==> q == a / b
    ensures a < 0 ==> q == -((-a) / b)
  {
    if a >= 0 then a / b else -((-a) / b)
  }

  /** The first id of the page, once doPaginate has clamped it into [0, n]. */
  function ClampedCursor(pageCursor: int, n: nat): (c: int)
    ensures 0 <= c <= n
    ensures 0 <= pageCursor <= n ==> c == pageCursor
    ensures pageCursor < 0 ==> c == 0
    ensures pageCursor > n ==> c == n
  {
    MinInt(MaxInt(pageCursor, 0), n)
  }

  /** The ids on the page that starts at `pageCursor`: at most `max` of them, none when
      `max` is negative. */
  function Page(allIds: seq<Id>, pageCursor: int, max: int): (ids: seq<Id>)
    ensures max < 0 ==> ids == []
    ensures max >= 0 ==> |ids| <= max
    ensures var c := ClampedCursor(pageCursor, |allIds|);
      max >= 0 ==> |ids| == MinInt(|allIds| - c, max) && forall j :: 0 <= j < |ids| ==> ids[j] == allIds[c + j]
  {
    var c := ClampedCursor(pageCursor, |allIds|);
    var nb := MinInt(|allIds| - c, max);
    if nb < 0 then [] else allIds[c .. c + nb]
  }

  /** The first id of the next page: unchanged on the last page. */
  function NextCursor(pageCursor: int, max: int, n: nat): int {
    if pageCursor + max >= n then pageCursor else pageCursor + max
  }

  /** The first id of the previous page: unchanged on the first page, never below 0. */
  function PreviousCursor(pageCursor: int, max: int): int {
    if pageCursor == 0 then pageCursor else MaxInt(0, pageCursor - max)
  }

  /** Going one page forward and one back returns to the page left, whenever there was a
      next page. */
  lemma NextThenPrevious(pageCursor: int, max: int, n: nat)
    requires 0 <= pageCursor && 0 < max && pageCursor + max < n
    ensures var next := ClampedCursor(NextCursor(pageCursor, max, n), n);
      next == pageCursor + max && ClampedCursor(PreviousCursor(next, max), n) == pageCursor
  {
  }

  /** The ticket at index k is on the page that starts at (k / max) * max, at row k % max. */
  lemma PagesTile(allIds: seq<Id>, max: int, k: int)
    requires 0 < max && 0 <= k < |allIds|
    ensures var pc := (k / max) * max;
      var page := Page(allIds, pc, max);
      k % max < |page| && page[k % max] == allIds[k]
  {
    var pc := (k / max) * max;
    assert k == pc + k % max;
  }

  /** The row cursorClamp leaves: within the page, or 0 when the page is empty. */
  function ClampedRow(y: int, tableLength: nat): (r: int)
    ensures tableLength == 0 ==> r == 0
    ensures tableLength > 0 ==> 0 <= r < tableLength
    ensures 0 <= y < tableLength ==> r == y
  {
    MaxInt(MinInt(y, tableLength - 1), 0)
  }

  /** getColumnWidths: the fixed columns, then the author and the title sharing what is
      left of the line. */
  function ColumnWidths(maxX: int): (m: map<string, int>)
    ensures m.Keys == {"id", "status", "comments", "lastEdit", "author", "title"}
    ensures m["id"] == 7 && m["status"] == 6 && m["comments"] == 3 && m["lastEdit"] == 14
    ensures m["title"] >= 10
  {
    var left := maxX - 5 - 7 - 6 - 3 - 14;
    var author := MinInt(MaxInt(GoDiv(left, 3), 15), 10 + GoDiv(left, 8));
    map["id" := 7, "status" := 6, "comments" := 3, "lastEdit" := 14,
        "author" := author, "title" := MaxInt(left - author, 10)]
  }

  /** On a wide enough line the columns and the five separators fill it exactly, and the
      author column is between 15 and a third of what the fixed columns leave. */
  lemma ColumnsFillLine(maxX: int)
    requires maxX >= 35 + 60
    ensures var m := ColumnWidths(maxX);
      && m["id"] + m["status"] + m["title"] + m["author"] + m["comments"] + m["lastEdit"] + 5 == maxX
      && 15 <= m["author"] <= (maxX - 35) / 3
  {
  }

  /** The excerpts doPaginate loads for `ids`: one per id, in order, up to the first lookup
      that fails; the rest of the page stays empty (nil). */
  predicate LoadedUpTo(ids: seq<Id>, resolve: Id -> Result<BugExcerpt>, page: seq<Option<BugExcerpt>>, k: int)
    requires 0 <= k <= |ids|
  {
    && |page| == |ids|
    && (forall j :: 0 <= j < k ==> resolve(ids[j]).Ok? && page[j] == Some(resolve(ids[j]).value))
    && (forall j :: k <= j < |ids| ==> page[j] == None)
  }

  /** What doPaginate leaves for the page `ids`: it passes exactly when every id resolves,
      and then the whole page is loaded; otherwise it reports the first failing lookup,
      with the page loaded up to it. */
  predicate Paginated(ids: seq<Id>, resolve: Id -> Result<BugExcerpt>, page: seq<Option<BugExcerpt>>, r: Outcome)
  {
    && (r.Pass? <==> forall j :: 0 <= j < |ids| ==> resolve(ids[j]).Ok?)
    && (r.Pass? ==> LoadedUpTo(ids, resolve, page, |ids|))
    && (r.Fail? ==> exists k :: (0 <= k < |ids| && resolve(ids[k]).Err? && r.msg == resolve(ids[k]).msg
          && LoadedUpTo(ids, resolve, page, k)))
  }

  class BugTable {
    var allIds: seq<Id>
    /** The page on screen; an entry stays nil when loading the page failed before it. */
    var excerpts: seq<Option<BugExcerpt>>
    var pageCursor: int
    var selectCursor: int

    /** newBugTable: nothing listed yet, on the first row of the first page. */
    constructor ()
      ensures allIds == [] && excerpts == [] && pageCursor == 0 && selectCursor == 0
    {
      allIds := [];
      excerpts := [];
      pageCursor := 0;
      selectCursor := 0;
    }

    /** doPaginate: clamps the page cursor and loads the excerpts of the page. */
    method DoPaginate(max: int, resolve: Id -> Result<BugExcerpt>) returns (r: Outcome)
      modifies this
      ensures allIds == old(allIds) && selectCursor == old(selectCursor)
      ensures pageCursor == ClampedCursor(old(pageCursor), |allIds|)
      ensures max < 0 ==> excerpts == [] && r == Pass
      ensures max >= 0 ==> |excerpts| <= max
      ensures Paginated(Page(allIds, pageCursor, max), resolve, excerpts, r)
    {
      pageCursor := MaxInt(pageCursor, 0);
      pageCursor := MinInt(pageCursor, |allIds|);
      var nb := MinInt(|allIds| - pageCursor, max);
      if nb < 0 {
        excerpts := [];
        return Pass;
      }
      var ids := allIds[pageCursor .. pageCursor + nb];
      assert ids == Page(allIds, pageCursor, max);
      var page: seq<Option<BugExcerpt>> := seq(|ids|, _ => None);
      var i := 0;
      while i < |ids|
        invariant 0 <= i <= |ids|
        invariant LoadedUpTo(ids, resolve, page, i)
      {
        var excerpt := resolve(ids[i]);
        if excerpt.Err? {
          excerpts := page;
          return Fail(excerpt.msg);
        }
        page := page[i := Some(excerpt.value)];
        i := i + 1;
      }
      excerpts := page;
      return Pass;
    }

    /** cursorDown: the next row; from the last row, the first row of the next page, or
        nothing on the last page. */
    method CursorDown(max: int, resolve: Id -> Result<BugExcerpt>) returns (r: Outcome)
      modifies this
      ensures allIds == old(allIds)
      ensures old(selectCursor) + 1 <= |old(excerpts)| - 1 ==>
        selectCursor == old(selectCursor) + 1 && pageCursor == old(pageCursor) && excerpts == old(excerpts) && r == Pass
      ensures old(selectCursor) + 1 > |old(excerpts)| - 1 && old(pageCursor) + max >= |allIds| ==>
        selectCursor == old(selectCursor) && pageCursor == old(pageCursor) && excerpts == old(excerpts) && r == Pass
      ensures old(selectCursor) + 1 > |old(excerpts)| - 1 && old(pageCursor) + max < |allIds| ==>
        selectCursor == 0 && pageCursor == ClampedCursor(NextCursor(old(pageCursor), max, |allIds|), |allIds|)
        && Paginated(Page(allIds, pageCursor, max), resolve, excerpts, r)
    {
      if selectCursor + 1 > |excerpts| - 1 {
        if pageCursor + max >= |allIds| {
          return Pass;
        }
        pageCursor := pageCursor + max;
        selectCursor := 0;
        r := DoPaginate(max, resolve);
        return;
      }
      selectCursor := MinInt(selectCursor + 1, |excerpts| - 1);
      return Pass;
    }

    /** cursorUp: the previous row; from the first row, row max - 1 of the previous page,
        or nothing on the first page. */
    method CursorUp(max: int, resolve: Id -> Result<BugExcerpt>) returns (r: Outcome)
      modifies this
      ensures allIds == old(allIds)
      ensures old(selectCursor) - 1 >= 0 ==>
        selectCursor == old(selectCursor) - 1 && pageCursor == old(pageCursor) && excerpts == old(excerpts) && r == Pass
      ensures old(selectCursor) - 1 < 0 && old(pageCursor) == 0 ==>
        selectCursor == old(selectCursor) && pageCursor == 0 && excerpts == old(excerpts) && r == Pass
      ensures old(selectCursor) - 1 < 0 && old(pageCursor) != 0 ==>
        selectCursor == max - 1 && pageCursor == ClampedCursor(PreviousCursor(old(pageCursor), max), |allIds|)
        && Paginated(Page(allIds, pageCursor, max), resolve, excerpts, r)
    {
      if selectCursor - 1 < 0 {
        if pageCursor == 0 {
          return Pass;
        }
        pageCursor := MaxInt(0, pageCursor - max);
        selectCursor := max - 1;
        r := DoPaginate(max, resolve);
        return;
      }
      selectCursor := MaxInt(selectCursor - 1, 0);
      return Pass;
    }

    /** cursorClamp: keeps the selected row on the page. */
    method CursorClamp()
      modifies this
      ensures selectCursor == ClampedRow(old(selectCursor), |excerpts|)
      ensures allIds == old(allIds) && excerpts == old(excerpts) && pageCursor == old(pageCursor)
    {
      var y := selectCursor;
      y := MinInt(y, |excerpts| - 1);
      y := MaxInt(y, 0);
      selectCursor := y;
    }

    /** nextPage: the next page, or nothing on the last page. */
    method NextPage(max: int, resolve: Id -> Result<BugExcerpt>) returns (r: Outcome)
      modifies this
      ensures allIds == old(allIds) && selectCursor == old(selectCursor)
      ensures old(pageCursor) + max >= |allIds| ==> pageCursor == old(pageCursor) && excerpts == old(excerpts) && r == Pass
      ensures old(pageCursor) + max < |allIds| ==>
        pageCursor == ClampedCursor(NextCursor(old(pageCursor), max, |allIds|), |allIds|)
        && Paginated(Page(allIds, pageCursor, max), resolve, excerpts, r)
    {
      if pageCursor + max >= |allIds| {
        return Pass;
      }
      pageCursor := pageCursor + max;
      r := DoPaginate(max, resolve);
    }

    /** previousPage: the previous page, or nothing on the first page. */
    method PreviousPage(max: int, resolve: Id -> Result<BugExcerpt>) returns (r: Outcome)
      modifies this
      ensures allIds == old(allIds) && selectCursor == old(selectCursor)
      ensures old(pageCursor) == 0 ==> pageCursor == 0 && excerpts == old(excerpts) && r == Pass
      ensures old(pageCursor) != 0 ==>
        pageCursor == ClampedCursor(PreviousCursor(old(pageCursor), max), |allIds|)
        && Paginated(Page(allIds, pageCursor, max), resolve, excerpts, r)
    {
      if pageCursor == 0 {
        return Pass;
      }
      pageCursor := MaxInt(0, pageCursor - max);
      r := DoPaginate(max, resolve);
    }

    /** openBug: nothing to open on an empty page; otherwise the ticket of the selected row
        is resolved and shown. Its result is the id shown. Selecting past the page, or a
        row left nil, is the panic of the source. */
    method OpenBug(resolveBug: Id -> Outcome) returns (r: Result<Option<Id>>)
      ensures |excerpts| == 0 ==> r == Ok(None)
      ensures |excerpts| > 0 && !(0 <= selectCursor < |excerpts|) ==> r == Err("index out of range")
      ensures |excerpts| > 0 && 0 <= selectCursor < |excerpts| && excerpts[selectCursor].None? ==>
        r == Err("invalid memory address or nil pointer dereference")
      ensures |excerpts| > 0 && 0 <= selectCursor < |excerpts| && excerpts[selectCursor].Some? ==>
        var id := excerpts[selectCursor].value.id;
        r == (if resolveBug(id).Fail? then Err(resolveBug(id).msg) else Ok(Some(id)))
      ensures r.Ok? && r.value.Some? ==>
        (0 <= selectCursor < |excerpts| && excerpts[selectCursor].Some? && r.value.value == excerpts[selectCursor].value.id)
    {
      if |excerpts| == 0 {
        return Ok(None);
      }
      if !(0 <= selectCursor < |excerpts|) {
        return Err("index out of range");
      }
      if excerpts[selectCursor].None? {
        return Err("invalid memory address or nil pointer dereference");
      }
      var id := excerpts[selectCursor].value.id;
      var shown := resolveBug(id);
      if shown.Fail? {
        return Err(shown.msg);
      }
      return Ok(Some(id));
    }
  }
}
