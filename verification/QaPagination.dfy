/**
  Keyset pagination of the QA solutions: the server's page and cursor, and the client loop that
  follows cursors until its cap is reached.
 */
module QaPagination {
  import opened Prelude

  /** A stored solution as far as pagination and the client's checks look at it. */
  datatype Row = Row(week: int, tow: real, id: int, quality: int, deviations: seq<Option<real>>)

  /** A row as sent: without its id. */
  datatype Sent = Sent(week: int, tow: real, quality: int, deviations: seq<Option<real>>)

  /** The decoded content of a cursor token, and the position it is accepted as. */
  datatype Token = Token(week: int, tow: real, id: int)

  datatype Page = Page(rows: seq<Sent>, hasMore: bool, next: Option<Token>)

  datatype RequestError = LimitOutOfRange | InvalidCursor

  datatype LoadError = PageLimitExceeded | RequestFailed | InvalidEpoch | DuplicateOrUnordered | InvalidNextCursor

  datatype Loaded = Loaded(rows: seq<Sent>, hasMore: bool)

  const WEEK_SECONDS := 604800.0
  const MAX_PAGES := 50
  const PAGE_ROWS := 500

  function Position(r: Row): Token {
    Token(r.week, r.tow, r.id)
  }

  /** The order of the query: week, time of week, id. */
  predicate Less(a: Token, b: Token) {
    a.week < b.week || (a.week == b.week && (a.tow < b.tow || (a.tow == b.tow && a.id < b.id)))
  }

  /** The column checks of the table. */
  predicate Checked(r: Row) {
    r.week >= 0 && 0.0 <= r.tow < WEEK_SECONDS && r.id >= 0
  }

  /** The rows of the one-shot query: checked and strictly ordered, because ids are unique. */
  ghost predicate Stored(rows: seq<Row>) {
    (forall i :: 0 <= i < |rows| ==> Checked(rows[i])) && Sorted(rows)
  }

  ghost predicate Sorted(rows: seq<Row>) {
    forall i, j :: 0 <= i < j < |rows| ==> Less(Position(rows[i]), Position(rows[j]))
  }

  function Strip(rows: seq<Row>): (s: seq<Sent>)
    ensures |s| == |rows|
    ensures forall i :: 0 <= i < |rows| ==> s[i] == Sent(rows[i].week, rows[i].tow, rows[i].quality, rows[i].deviations)
  {
    seq(|rows|, i requires 0 <= i < |rows| => Sent(rows[i].week, rows[i].tow, rows[i].quality, rows[i].deviations))
  }

  // ---------------------------------------------------------------- the server

  /** What parsing accepts as a cursor. */
  predicate Acceptable(t: Token) {
    t.week >= 0 && 0.0 <= t.tow < WEEK_SECONDS && t.id >= 0
  }

  /** The filter on the cursor. */
  function After(rows: seq<Row>, cursor: Option<Token>): seq<Row> {
    if rows == [] then []
    else
      var last := rows[|rows| - 1];
      After(rows[..|rows| - 1], cursor) + (if cursor.None? || Less(cursor.value, Position(last)) then [last] else [])
  }

  function Take(rows: seq<Row>, n: nat): seq<Row> {
    if |rows| <= n then rows else rows[..n]
  }

  /** One request: at most `limit` rows behind the cursor, and a cursor if there are more. */
  method ListPage(rows: seq<Row>, cursor: Option<Token>, limit: int) returns (r: Result<Page, RequestError>)
    ensures r.Ok? <==> 1 <= limit <= 2000 && (cursor.Some? ==> Acceptable(cursor.value))
    ensures r.Ok? ==> var after := After(rows, cursor);
      r.value == Page(Strip(Take(after, limit)), |after| > limit,
                      if |after| > limit then Some(Position(after[limit - 1])) else None)
  {
    if !(1 <= limit <= 2000) {
      return Err(LimitOutOfRange);
    }
    if cursor.Some? && !Acceptable(cursor.value) {
      return Err(InvalidCursor);
    }
    var fetched := Take(After(rows, cursor), limit + 1);
    var hasMore := |fetched| > limit;
    var selected := Take(fetched, limit);
    var results: seq<Sent> := [];
    for i := 0 to |selected|
      invariant results == Strip(selected)[..i]
    {
      var row := selected[i];
      results := results + [Sent(row.week, row.tow, row.quality, row.deviations)];
    }
    var next := if hasMore && selected != [] then Some(Position(selected[|selected| - 1])) else None;
    r := Ok(Page(results, hasMore, next));
  }

  lemma LessIsStrict(a: Token, b: Token)
    ensures Less(a, b) ==> !Less(b, a) && a != b
  {
  }

  lemma {:induction false} AfterConcat(s: seq<Row>, t: seq<Row>, cursor: Option<Token>)
    ensures After(s + t, cursor) == After(s, cursor) + After(t, cursor)
  {
    hide Less;
    if t == [] {
      assert s + t == s;
    } else {
      AfterConcat(s, t[..|t| - 1], cursor);
      assert (s + t)[..|s + t| - 1] == s + t[..|t| - 1];
    }
  }

  lemma {:induction false} AfterAll(s: seq<Row>, cursor: Token)
    requires forall i :: 0 <= i < |s| ==> Less(cursor, Position(s[i]))
    ensures After(s, Some(cursor)) == s
  {
    hide Less;
    if s != [] {
      AfterAll(s[..|s| - 1], cursor);
    }
  }

  lemma {:induction false} AfterNone(s: seq<Row>, cursor: Token)
    requires forall i :: 0 <= i < |s| ==> !Less(cursor, Position(s[i]))
    ensures After(s, Some(cursor)) == []
  {
    hide Less;
    if s != [] {
      AfterNone(s[..|s| - 1], cursor);
    }
  }

  lemma NotBehindItself(rows: seq<Row>, a: nat)
    requires Sorted(rows) && 0 < a <= |rows|
    ensures After(rows[..a], Some(Position(rows[a - 1]))) == []
  {
    var k := Position(rows[a - 1]);
    forall i | 0 <= i < a ensures !Less(k, Position(rows[..a][i])) {
      LessIsStrict(Position(rows[i]), k);
      if i < a - 1 {
        assert Less(Position(rows[i]), k);
      }
    }
    AfterNone(rows[..a], k);
  }

  /** Behind the cursor of row `a - 1` stand exactly the rows from `a` on. */
  lemma AfterIsSuffix(rows: seq<Row>, a: nat)
    requires Sorted(rows) && 0 < a <= |rows|
    ensures After(rows, Some(Position(rows[a - 1]))) == rows[a..]
  {
    hide Less, After;
    var k := Position(rows[a - 1]);
    NotBehindItself(rows, a);
    AfterAll(rows[a..], k);
    AfterConcat(rows[..a], rows[a..], Some(k));
    assert rows[..a] + rows[a..] == rows;
  }

  lemma {:induction false} AfterNothing(rows: seq<Row>)
    ensures After(rows, None) == rows
  {
    if rows != [] {
      AfterNothing(rows[..|rows| - 1]);
    }
  }

  function CursorAt(rows: seq<Row>, a: nat): Option<Token>
    requires a <= |rows|
  {
    if a == 0 then None else Some(Position(rows[a - 1]))
  }

  lemma AfterCursor(rows: seq<Row>, a: nat)
    requires Sorted(rows) && a <= |rows|
    ensures After(rows, CursorAt(rows, a)) == rows[a..]
  {
    if a == 0 {
      AfterNothing(rows);
    } else {
      AfterIsSuffix(rows, a);
    }
  }

  /** A cursor the server hands out is accepted by the server, because of the column checks. */
  lemma OwnCursorAccepted(rows: seq<Row>, a: nat)
    requires Stored(rows) && 0 < a <= |rows|
    ensures Acceptable(CursorAt(rows, a).value)
  {
  }

  // ---------------------------------------------------------------- the client

  predicate Displayable(s: Sent) {
    && s.week >= 0 && 0.0 <= s.tow < WEEK_SECONDS && s.quality in {1, 2, 5}
    && forall d :: d in s.deviations && d.Some? ==> d.value >= 0.0
  }

  function Epoch(s: Sent): real {
    s.week as real * WEEK_SECONDS + s.tow
  }

  /** The key of a row seen: the id is not sent, so it is the same for every row. */
  function SeenKey(s: Sent): (int, real) {
    (s.week, s.tow)
  }

  ghost function Keys(s: seq<Sent>): set<(int, real)> {
    set x | x in s :: SeenKey(x)
  }

  /** A list the client accepts: every row displayable and no epoch twice. */
  ghost predicate Loadable(s: seq<Sent>) {
    && (forall i :: 0 <= i < |s| ==> Displayable(s[i]))
    && (forall i, j :: 0 <= i < j < |s| ==> SeenKey(s[i]) != SeenKey(s[j]))
  }

  /** The key of a shown row separates epochs: displayable rows share one exactly when their epochs are equal. */
  lemma KeysSeparateEpochs(a: Sent, b: Sent)
    requires Displayable(a) && Displayable(b)
    ensures SeenKey(a) == SeenKey(b) <==> a.week == b.week && a.tow == b.tow
    ensures SeenKey(a) == SeenKey(b) <==>
      a.week as real * 604800.0 + a.tow == b.week as real * 604800.0 + b.tow
    ensures Epoch(a) == a.week as real * 604800.0 + a.tow
  {
    hide Displayable;
    assert 0.0 <= a.tow < 604800.0 && 0.0 <= b.tow < 604800.0 by { DisplayableExactly(a); DisplayableExactly(b); }
    WeeksApart(a.week, b.week);
    WeeksApart(b.week, a.week);
  }

  lemma WeeksApart(v: int, w: int)
    ensures v < w ==> v as real + 1.0 <= w as real
  {
  }

  /** Rows are shown with a week, a time within it, quality 1, 2 or 5, and no negative deviation. */
  lemma DisplayableExactly(s: Sent)
    ensures Displayable(s) <==>
      && s.week >= 0 && 0.0 <= s.tow < 604800.0 && (s.quality == 1 || s.quality == 2 || s.quality == 5)
      && forall k :: 0 <= k < |s.deviations| && s.deviations[k].Some? ==> s.deviations[k].value >= 0.0
  {
    if Displayable(s) {
      forall k | 0 <= k < |s.deviations| && s.deviations[k].Some? ensures s.deviations[k].value >= 0.0 {
        assert s.deviations[k] in s.deviations;
      }
    }
  }

  /** A table with distinct epochs and displayable rows is loaded whole, up to the limit, below 25000 rows. */
  lemma LoadableExactly(rows: seq<Row>, limit: int)
    ensures Wanted(|rows|, limit) == if limit < 0 then 0 else if limit <= |rows| then limit else |rows|
    ensures EnoughPages(|rows|, limit) <==> limit <= 25000 || |rows| <= 25000
    ensures Loadable(Strip(rows)) <==>
      (forall i :: 0 <= i < |rows| ==> Displayable(Strip(rows)[i]))
      && forall i, j :: 0 <= i < j < |rows| ==> rows[i].week != rows[j].week || rows[i].tow != rows[j].tow
  {
  }

  lemma EpochsOrdered(rows: seq<Row>, i: nat, j: nat)
    requires Stored(rows) && i < j < |rows|
    ensures Epoch(Strip(rows)[i]) <= Epoch(Strip(rows)[j])
  {
    assert Less(Position(rows[i]), Position(rows[j]));
    if rows[i].week < rows[j].week {
      assert rows[i].week as real * WEEK_SECONDS + WEEK_SECONDS <= rows[j].week as real * WEEK_SECONDS;
    }
  }

  /** How many rows a load ends with. */
  function Wanted(n: nat, limit: int): nat {
    if limit <= 0 then 0 else if limit < n then limit else n
  }

  /** The row loop over one page: it goes on exactly while the accumulated list stays loadable. */
  method AppendPage(accumulated: seq<Sent>, seen: set<(int, real)>, page: seq<Sent>)
    returns (r: Result<seq<Sent>, LoadError>, seen': set<(int, real)>)
    requires Loadable(accumulated) && seen == Keys(accumulated)
    requires var all := accumulated + page; forall i, j :: 0 <= i < j < |all| ==> Epoch(all[i]) <= Epoch(all[j])
    ensures r.Ok? <==> Loadable(accumulated + page)
    ensures r.Ok? ==> r.value == accumulated + page && seen' == Keys(accumulated + page)
  {
    hide Displayable, Epoch, Loadable, Keys, SeenKey;
    var all := accumulated;
    seen' := seen;
    ghost var whole := accumulated + page;
    for k := 0 to |page|
      invariant all == accumulated + page[..k] && Loadable(all) && seen' == Keys(all)
    {
      var row := page[k];
      assert whole[..|all|] == all && whole[|all|] == row;
      assert all != [] ==> whole[|all| - 1] == all[|all| - 1];
      NextRow(whole, all, row);
      if !Displayable(row) {
        return Err(InvalidEpoch), seen';
      }
      if SeenKey(row) in seen' || (all != [] && Epoch(row) < Epoch(all[|all| - 1])) {
        return Err(DuplicateOrUnordered), seen';
      }
      seen' := seen' + {SeenKey(row)};
      all := all + [row];
    }
    assert page[..|page|] == page;
    r := Ok(all);
  }

  /** The next row keeps the list loadable exactly when it is displayable and its key was not seen. */
  lemma NextRow(whole: seq<Sent>, all: seq<Sent>, row: Sent)
    requires |all| < |whole| && whole[..|all|] == all && whole[|all|] == row && Loadable(all)
    ensures Loadable(all + [row]) <==> Displayable(row) && SeenKey(row) !in Keys(all)
    ensures Loadable(whole) ==> Displayable(row) && SeenKey(row) !in Keys(all)
    ensures Keys(all + [row]) == Keys(all) + {SeenKey(row)}
  {
    hide Displayable, SeenKey;
    var more := all + [row];
    assert whole[..|more|] == more;
    assert forall i :: 0 <= i < |all| ==> more[i] == all[i];
    if SeenKey(row) in Keys(all) {
      var s :| s in all && SeenKey(s) == SeenKey(row);
      var i :| 0 <= i < |all| && all[i] == s;
      assert SeenKey(more[i]) == SeenKey(more[|all|]);
    }
  }

  lemma WholePrefixOrdered(rows: seq<Row>, a: nat, b: nat)
    requires Stored(rows) && a <= b <= |rows|
    ensures var all := Strip(rows[..a]) + Strip(rows[a..b]);
      all == Strip(rows[..b]) && forall i, j :: 0 <= i < j < |all| ==> Epoch(all[i]) <= Epoch(all[j])
  {
    hide Epoch;
    var all := Strip(rows[..a]) + Strip(rows[a..b]);
    assert all == Strip(rows[..b]);
    forall i, j | 0 <= i < j < |all| ensures Epoch(all[i]) <= Epoch(all[j]) {
      EpochsOrdered(rows, i, j);
    }
  }

  lemma LoadablePrefix(rows: seq<Row>, a: nat, b: nat)
    requires a <= b <= |rows| && Loadable(Strip(rows[..b]))
    ensures Loadable(Strip(rows[..a]))
  {
    hide Displayable;
    var s, t := Strip(rows[..a]), Strip(rows[..b]);
    assert forall i :: 0 <= i < a ==> s[i] == t[i];
  }

  function PageEnd(n: nat, a: nat, size: nat): nat {
    if a + size < n then a + size else n
  }

  /** The page behind the first `a` rows. */
  ghost function PageAt(rows: seq<Row>, a: nat, size: nat): Page
    requires a <= |rows|
  {
    var b := PageEnd(|rows|, a, size);
    Page(Strip(rows[a..b]), b < |rows|, if b < |rows| then CursorAt(rows, b) else None)
  }

  lemma PageIs(rows: seq<Row>, a: nat, size: nat)
    requires Stored(rows) && a <= |rows| && size >= 1
    ensures var after := After(rows, CursorAt(rows, a));
      PageAt(rows, a, size) == Page(Strip(Take(after, size)), |after| > size,
                                    if |after| > size then Some(Position(after[size - 1])) else None)
  {
    AfterCursor(rows, a);
    var b := PageEnd(|rows|, a, size);
    assert Take(rows[a..], size) == rows[a..b];
  }

  /** Where following cursors with these page sizes ends. */
  function FollowEnd(n: nat, a: nat, sizes: seq<nat>): nat
    decreases |sizes|
  {
    if sizes == [] then a else FollowEnd(n, PageEnd(n, a, sizes[0]), sizes[1..])
  }

  /** The pages that following cursors yields, one after the other. */
  ghost function Follow(rows: seq<Row>, a: nat, sizes: seq<nat>): seq<Sent>
    requires a <= |rows|
    decreases |sizes|
  {
    if sizes == [] then []
    else PageAt(rows, a, sizes[0]).rows + Follow(rows, PageEnd(|rows|, a, sizes[0]), sizes[1..])
  }

  function Total(sizes: seq<nat>): nat {
    if sizes == [] then 0 else sizes[0] + Total(sizes[1..])
  }

  /** Whatever the page sizes, the pages are the next rows of the one-shot query: no gap, no repeat. */
  lemma {:induction false} AnyPageSizes(rows: seq<Row>, a: nat, sizes: seq<nat>)
    requires a <= |rows|
    ensures FollowEnd(|rows|, a, sizes) == PageEnd(|rows|, a, Total(sizes))
    ensures Follow(rows, a, sizes) == Strip(rows[a..PageEnd(|rows|, a, Total(sizes))])
    decreases |sizes|
  {
    if sizes != [] {
      var b, c := PageEnd(|rows|, a, sizes[0]), PageEnd(|rows|, a, Total(sizes));
      AnyPageSizes(rows, b, sizes[1..]);
      assert rows[a..c] == rows[a..b] + rows[b..c];
      assert Strip(rows[a..b]) + Strip(rows[b..c]) == Strip(rows[a..c]);
    }
  }

  /** A request with a cursor of the server's own always gets the next page. */
  method FetchPage(rows: seq<Row>, ghost a: nat, cursor: Option<Token>, size: int) returns (r: Result<Page, LoadError>)
    requires Stored(rows) && a <= |rows| && cursor == CursorAt(rows, a) && 1 <= size <= PAGE_ROWS
    ensures r == Ok(PageAt(rows, a, size))
  {
    hide After, Acceptable;
    PageIs(rows, a, size);
    if a > 0 { OwnCursorAccepted(rows, a); }
    var answer := ListPage(rows, cursor, size);
    if answer.Err? {
      return Err(RequestFailed);
    }
    r := Ok(answer.value);
  }

  lemma NextCursorMoves(rows: seq<Row>, a: nat, b: nat)
    requires Stored(rows) && a <= b <= |rows|
    ensures a < b ==> CursorAt(rows, b).Some? && CursorAt(rows, b) != CursorAt(rows, a) && Strip(rows[a..b]) != []
  {
    if 0 < a < b {
      assert Less(Position(rows[a - 1]), Position(rows[b - 1]));
    }
  }

  lemma NothingLoaded(rows: seq<Row>)
    ensures Strip(rows[..0]) == [] && Loadable([]) && Keys([]) == {}
  {
  }

  /** One page more can be asked for only if pages are left. */
  predicate EnoughPages(n: nat, limit: int) {
    limit <= MAX_PAGES * PAGE_ROWS || n <= MAX_PAGES * PAGE_ROWS
  }

  /**
    Following cursors page by page.  The load succeeds exactly when fifty pages are enough and the rows
    asked for are displayable with distinct epochs; it then holds exactly the first `limit` rows of the
    one-shot query, and reports whether there are more.
   */
  method LoadQaPages(rows: seq<Row>, limit: int) returns (r: Result<Loaded, LoadError>)
    requires Stored(rows)
    ensures r.Ok? <==> EnoughPages(|rows|, limit) && Loadable(Strip(rows[..Wanted(|rows|, limit)]))
    ensures r.Ok? ==> r.value == Loaded(Strip(rows[..Wanted(|rows|, limit)]), 0 < limit < |rows|)
  {
    hide Displayable, Loadable, Epoch, Stored, Keys;
    var accumulated: seq<Sent> := [];
    var cursor: Option<Token> := None;
    var seen: set<(int, real)> := {};
    var hasMore, pageCount := false, 0;
    ghost var a := 0;
    NothingLoaded(rows);
    while true
      invariant 0 <= pageCount <= MAX_PAGES
      invariant 0 <= a <= Wanted(|rows|, limit) && accumulated == Strip(rows[..a]) && cursor == CursorAt(rows, a)
      invariant seen == Keys(accumulated)
      invariant Loadable(accumulated)
      invariant pageCount > 0 ==> a == pageCount * PAGE_ROWS < limit && a < |rows|
      invariant pageCount == 0 ==> a == 0 && !hasMore
      decreases MAX_PAGES - pageCount
    {
      var remaining := limit - |accumulated|;
      if remaining <= 0 {
        break;
      }
      pageCount := pageCount + 1;
      if pageCount > MAX_PAGES {
        return Err(PageLimitExceeded);
      }
      var size := if remaining < PAGE_ROWS then remaining else PAGE_ROWS;
      ghost var b := PageEnd(|rows|, a, size);
      var answer := FetchPage(rows, a, cursor, size);
      if answer.Err? {
        return Err(RequestFailed);
      }
      var body := answer.value;
      WholePrefixOrdered(rows, a, b);
      var grown, seen' := AppendPage(accumulated, seen, body.rows);
      if grown.Err? {
        assert !Loadable(Strip(rows[..Wanted(|rows|, limit)])) by {
          if Loadable(Strip(rows[..Wanted(|rows|, limit)])) { LoadablePrefix(rows, b, Wanted(|rows|, limit)); }
        }
        return Err(grown.error);
      }
      accumulated, seen := grown.value, seen';
      hasMore := body.hasMore;
      NextCursorMoves(rows, a, b);
      if hasMore && (body.next == None || body.next == cursor || body.rows == []) {
        return Err(InvalidNextCursor);
      }
      a := b;
      if !(hasMore && |accumulated| < limit) {
        break;
      }
      cursor := body.next;
    }
    r := Ok(Loaded(accumulated, hasMore));
  }
}
