/**
 * The extraction rules of `Webscraper.parse` and `Webscraper.parseItem`,
 * stated as functions over the abstract document of module Dom. The class in
 * module Scraper runs them step by step and is proved against them.
 */
module Extract {
  import opened Wrappers
  import opened Dom
  import opened Patterns
  import opened Pairing

  /** The `Article` named tuple: one scraped story. */
  datatype Article = Article(
    rank: string,
    title: string,
    link: string,
    points: string,
    submitter: string)

  /** The fatal failures of the Python code, each an uncaught exception there. */
  datatype ParseError =
    | NoArticleTable       // `findAll('table')[2]` on a page with fewer than three tables
    | MissingTitleCells    // `titleTDs[0]` or `titleTDs[1]` on a story row with fewer than two title cells
    | MissingTitleAnchor   // `titleTDs[1].find('a')` found no anchor, so `has_attr` is called on None

  const NoPoints: string := "no points"
  const UnknownSubmitter: string := "unknown"

  /** A pair is kept when its story row has a `td` and no `style` attribute (the "More" row has one). */
  predicate IsStory(row: Row) {
    row.hasTd && !row.hasStyle
  }

  predicate IsScoreSpan(s: Span) {
    s.id.Some? && IsScoreId(s.id.value)
  }

  predicate IsUserAnchor(a: Anchor) {
    a.href.Some? && IsUserHref(a.href.value)
  }

  /** The link of a title anchor: its `href`, or the empty string without one. */
  function LinkOf(a: Anchor): string {
    match a.href
    case Some(h) => h
    case None => ""
  }

  /** The text of the first score span of a metadata row, or "no points". */
  function PointsOf(meta: Row): string {
    match FindFirst(meta.spans, IsScoreSpan)
    case Some(i) => meta.spans[i].text
    case None => NoPoints
  }

  /** The text of the first user anchor of a metadata row, or "unknown". */
  function SubmitterOf(meta: Row): string {
    match FindFirst(meta.anchors, IsUserAnchor)
    case Some(i) => meta.anchors[i].text
    case None => UnknownSubmitter
  }

  /**
   * `parseItem` without the append: the record built from a story row and its
   * metadata row, or the exception the Python code raises on the way.
   */
  function ItemOf(story: Row, meta: Row): (r: Result<Article, ParseError>)
    ensures r.Success? <==> |story.titleCells| >= 2 && story.titleCells[1].anchor.Some?
    ensures |story.titleCells| < 2 ==> r == Failure(MissingTitleCells)
    ensures r.Success? ==>
      var anchor := story.titleCells[1].anchor.value;
      r.value.rank == story.titleCells[0].text && r.value.title == anchor.text &&
      (anchor.href.Some? ==> r.value.link == anchor.href.value) &&
      (anchor.href.None? ==> r.value.link == "")
  {
    if |story.titleCells| < 2 then Failure(MissingTitleCells)
    else match story.titleCells[1].anchor
      case None => Failure(MissingTitleAnchor)
      case Some(anchor) =>
        Success(Article(
          rank := story.titleCells[0].text,
          title := anchor.text,
          link := LinkOf(anchor),
          points := PointsOf(meta),
          submitter := SubmitterOf(meta)))
  }

  /** The points are the text of the first score span, or "no points" when there is none. */
  lemma ItemPoints(story: Row, meta: Row)
    requires ItemOf(story, meta).Success?
    ensures (forall i :: 0 <= i < |meta.spans| ==> !IsScoreSpan(meta.spans[i])) ==>
      ItemOf(story, meta).value.points == NoPoints
    ensures forall i: nat :: IsFirst(meta.spans, IsScoreSpan, i) ==>
      ItemOf(story, meta).value.points == meta.spans[i].text
  {
  }

  /** The submitter is the text of the first user anchor, or "unknown" when there is none. */
  lemma ItemSubmitter(story: Row, meta: Row)
    requires ItemOf(story, meta).Success?
    ensures (forall i :: 0 <= i < |meta.anchors| ==> !IsUserAnchor(meta.anchors[i])) ==>
      ItemOf(story, meta).value.submitter == UnknownSubmitter
    ensures forall i: nat :: IsFirst(meta.anchors, IsUserAnchor, i) ==>
      ItemOf(story, meta).value.submitter == meta.anchors[i].text
  {
  }

  /**
   * What a run of the `parse` loop over some pairs produces: the records
   * appended, in order, and the exception that stopped it, if one did.
   */
  datatype Scrape = Scrape(records: seq<Article>, failure: Option<ParseError>)

  /** The `parse` loop over `pairs`: skip non-story pairs, stop at the first failing item. */
  function ScrapePairs(pairs: seq<(Row, Row)>): Scrape
  {
    if pairs == [] then Scrape([], None)
    else if !IsStory(pairs[0].0) then ScrapePairs(pairs[1..])
    else match ItemOf(pairs[0].0, pairs[0].1)
      case Failure(e) => Scrape([], Some(e))
      case Success(a) =>
        var rest := ScrapePairs(pairs[1..]);
        Scrape([a] + rest.records, rest.failure)
  }

  /** The pairs the filter keeps, in order: an independent statement of the filter. */
  function Stories(pairs: seq<(Row, Row)>): seq<(Row, Row)>
  {
    if pairs == [] then []
    else (if IsStory(pairs[0].0) then [pairs[0]] else []) + Stories(pairs[1..])
  }

  /** The filter keeps exactly the pairs whose story row is a story, and nothing else. */
  lemma {:induction false} StoriesAreKeptPairs(pairs: seq<(Row, Row)>)
    ensures |Stories(pairs)| <= |pairs|
    ensures forall p :: p in Stories(pairs) <==> p in pairs && IsStory(p.0)
  {
    if pairs != [] {
      StoriesAreKeptPairs(pairs[1..]);
      assert pairs == [pairs[0]] + pairs[1..];
    }
  }

  /** The rows of the third table of the page, the one that lists the articles. */
  function ArticleRows(page: Page): Result<seq<Row>, ParseError>
  {
    if |page.tables| < 3 then Failure(NoArticleTable) else Success(page.tables[2].rows)
  }

  /** Everything one call of `parse` produces on a page. */
  function ParsePage(page: Page): Scrape
  {
    match ArticleRows(page)
    case Failure(e) => Scrape([], Some(e))
    case Success(rows) => ScrapePairs(Pairs(rows))
  }

  // ---------------------------------------------------------------------------
  // Properties of the parse loop

  /** Running the loop over one more pair after a clean prefix: what the loop body does. */
  lemma {:induction false} ScrapeAppend(pairs: seq<(Row, Row)>, p: (Row, Row))
    requires ScrapePairs(pairs).failure.None?
    ensures ScrapePairs(pairs + [p]) ==
      if !IsStory(p.0) then ScrapePairs(pairs)
      else match ItemOf(p.0, p.1)
        case Failure(e) => Scrape(ScrapePairs(pairs).records, Some(e))
        case Success(a) => Scrape(ScrapePairs(pairs).records + [a], None)
  {
    if pairs == [] {
      assert [p][1..] == [];
    } else {
      assert (pairs + [p])[1..] == pairs[1..] + [p];
      if IsStory(pairs[0].0) {
        ScrapeAppend(pairs[1..], p);
        var a := ItemOf(pairs[0].0, pairs[0].1).value;
        assert [a] + ScrapePairs(pairs[1..]).records == ScrapePairs(pairs).records;
      } else {
        ScrapeAppend(pairs[1..], p);
      }
    }
  }

  /** The loop step at position `i`, stated on prefixes of the pair list. */
  lemma ScrapeStep(pairs: seq<(Row, Row)>, i: nat)
    requires i < |pairs| && ScrapePairs(pairs[..i]).failure == None
    ensures ScrapePairs(pairs[..i + 1]) ==
      if !IsStory(pairs[i].0) then ScrapePairs(pairs[..i])
      else match ItemOf(pairs[i].0, pairs[i].1)
        case Failure(e) => Scrape(ScrapePairs(pairs[..i]).records, Some(e))
        case Success(a) => Scrape(ScrapePairs(pairs[..i]).records + [a], None)
  {
    assert pairs[..i + 1] == pairs[..i] + [pairs[i]];
    ScrapeAppend(pairs[..i], pairs[i]);
  }

  /** A failure at a prefix is the failure of the whole list. */
  lemma ScrapePrefixFailure(pairs: seq<(Row, Row)>, i: nat)
    requires i <= |pairs| && ScrapePairs(pairs[..i]).failure.Some?
    ensures ScrapePairs(pairs) == ScrapePairs(pairs[..i])
  {
    ScrapeStopsAtFailure(pairs[..i], pairs[i..]);
    assert pairs[..i] + pairs[i..] == pairs;
  }

  /** Once an item has failed, later pairs are never looked at: the exception ends the loop. */
  lemma {:induction false} ScrapeStopsAtFailure(pairs: seq<(Row, Row)>, rest: seq<(Row, Row)>)
    requires ScrapePairs(pairs).failure.Some?
    ensures ScrapePairs(pairs + rest) == ScrapePairs(pairs)
  {
    assert pairs != [];
    assert (pairs + rest)[0] == pairs[0];
    assert (pairs + rest)[1..] == pairs[1..] + rest;
    if !IsStory(pairs[0].0) || ItemOf(pairs[0].0, pairs[0].1).Success? {
      ScrapeStopsAtFailure(pairs[1..], rest);
    }
  }

  /** A filtered pair contributes nothing, wherever it stands. */
  lemma {:induction false} NonStoryContributesNothing(before: seq<(Row, Row)>, p: (Row, Row), after: seq<(Row, Row)>)
    requires !IsStory(p.0)
    ensures ScrapePairs(before + [p] + after) == ScrapePairs(before + after)
  {
    if before == [] {
      assert before + [p] + after == [p] + after && before + after == after;
      assert ([p] + after)[1..] == after;
    } else {
      assert (before + [p] + after)[1..] == before[1..] + [p] + after;
      assert (before + after)[1..] == before[1..] + after;
      NonStoryContributesNothing(before[1..], p, after);
    }
  }

  /** The loop stops with a failure exactly when some kept pair's item cannot be built. */
  lemma {:induction false} ScrapeFailsIff(pairs: seq<(Row, Row)>)
    ensures ScrapePairs(pairs).failure.None? <==>
      forall k :: 0 <= k < |pairs| && IsStory(pairs[k].0) ==> ItemOf(pairs[k].0, pairs[k].1).Success?
  {
    if pairs != [] {
      ScrapeFailsIff(pairs[1..]);
      assert forall k :: 1 <= k < |pairs| ==> pairs[k] == pairs[1..][k - 1];
    }
  }

  /**
   * Without a failure, the records are exactly the items of the kept pairs,
   * one per kept pair, in row order.
   */
  lemma {:induction false} ScrapeRecordsAreStories(pairs: seq<(Row, Row)>)
    requires ScrapePairs(pairs).failure.None?
    ensures |ScrapePairs(pairs).records| == |Stories(pairs)|
    ensures forall k :: 0 <= k < |Stories(pairs)| ==>
      ItemOf(Stories(pairs)[k].0, Stories(pairs)[k].1) == Success(ScrapePairs(pairs).records[k])
  {
    if pairs != [] {
      ScrapeRecordsAreStories(pairs[1..]);
      var rest := Stories(pairs[1..]);
      var later := ScrapePairs(pairs[1..]).records;
      if IsStory(pairs[0].0) {
        var a := ItemOf(pairs[0].0, pairs[0].1).value;
        assert Stories(pairs) == [pairs[0]] + rest;
        assert ScrapePairs(pairs).records == [a] + later;
        forall k | 1 <= k < |Stories(pairs)|
          ensures Stories(pairs)[k] == rest[k - 1] && ScrapePairs(pairs).records[k] == later[k - 1]
        {
        }
      } else {
        assert Stories(pairs) == rest;
        assert ScrapePairs(pairs).records == later;
      }
    }
  }

  /**
   * On a failure, the records are those of the clean prefix before the first
   * failing kept pair, and the failure is that pair's exception: the Python
   * list keeps what was appended before the exception.
   */
  lemma {:induction false} ScrapeFailurePrefix(pairs: seq<(Row, Row)>) returns (j: nat)
    requires ScrapePairs(pairs).failure.Some?
    ensures j < |pairs| && IsStory(pairs[j].0)
    ensures ItemOf(pairs[j].0, pairs[j].1) == Failure(ScrapePairs(pairs).failure.value)
    ensures ScrapePairs(pairs[..j]) == Scrape(ScrapePairs(pairs).records, None)
  {
    if IsStory(pairs[0].0) && ItemOf(pairs[0].0, pairs[0].1).Failure? {
      j := 0;
      assert pairs[..0] == [];
    } else {
      var i := ScrapeFailurePrefix(pairs[1..]);
      j := i + 1;
      assert pairs[..j][1..] == pairs[1..][..i];
      assert pairs[..j][0] == pairs[0];
    }
  }

  // ---------------------------------------------------------------------------
  // The whole of `parse` on a page

  /**
   * A page that parses without failure yields one record per kept group of the
   * third table, in row order: record `k` is built from rows `3j` and `3j + 1`
   * of the `k`-th group `j` whose story row has a `td` and no `style`.
   */
  lemma ParsePageRecords(page: Page)
    requires ParsePage(page).failure == None
    ensures |page.tables| >= 3
    ensures var pairs := Pairs(page.tables[2].rows);
      |ParsePage(page).records| == |Stories(pairs)| <= (|page.tables[2].rows| + 1) / 3 &&
      forall k :: 0 <= k < |Stories(pairs)| ==>
        ItemOf(Stories(pairs)[k].0, Stories(pairs)[k].1) == Success(ParsePage(page).records[k]) &&
        exists j :: 0 <= j < |pairs| && 3 * j + 1 < |page.tables[2].rows| &&
          Stories(pairs)[k] == (page.tables[2].rows[3 * j], page.tables[2].rows[3 * j + 1])
  {
    var rows := page.tables[2].rows;
    var pairs := Pairs(rows);
    PairsAt(rows);
    ScrapeRecordsAreStories(pairs);
    StoriesAreKeptPairs(pairs);
    forall k | 0 <= k < |Stories(pairs)|
      ensures exists j :: 0 <= j < |pairs| && 3 * j + 1 < |rows| && Stories(pairs)[k] == (rows[3 * j], rows[3 * j + 1])
    {
      assert Stories(pairs)[k] in pairs;
      var j :| 0 <= j < |pairs| && pairs[j] == Stories(pairs)[k];
    }
  }

  /** The items of the loop never fail with `NoArticleTable`: only table selection does. */
  lemma {:induction false} ScrapeNeverLacksTable(pairs: seq<(Row, Row)>)
    ensures ScrapePairs(pairs).failure != Some(NoArticleTable)
  {
    if pairs != [] {
      ScrapeNeverLacksTable(pairs[1..]);
    }
  }

  /** `parse` fails on table selection, with nothing scraped, exactly when the page has fewer than three tables. */
  lemma NoArticleTableIff(page: Page)
    ensures ParsePage(page) == Scrape([], Some(NoArticleTable)) <==> |page.tables| < 3
    ensures ParsePage(page).failure == Some(NoArticleTable) <==> |page.tables| < 3
  {
    if |page.tables| >= 3 {
      ScrapeNeverLacksTable(Pairs(page.tables[2].rows));
    }
  }

  // A small front page: the two chrome tables, then two stories (the second
  // without href, score or user link) and the "More" row, which is dropped.
  const ExampleStory1 := Row(true, false, [TitleCell("1.", None), TitleCell("", Some(Anchor(Some("http://a.example"), "A")))], [], [])
  const ExampleMeta1 := Row(true, false, [], [Span(None, "x"), Span(Some("score_42"), "7 points")],
                            [Anchor(Some("item?id=42"), "discuss"), Anchor(Some("user?id=pg"), "pg")])
  const ExampleStory2 := Row(true, false, [TitleCell("2.", None), TitleCell("", Some(Anchor(None, "B")))], [], [])
  const ExampleMeta2 := Row(true, false, [], [Span(Some("scorex"), "?")], [Anchor(None, "hide")])
  const ExampleSpacer := Row(false, false, [], [], [])
  const ExampleMore := Row(true, true, [TitleCell("", Some(Anchor(Some("news?p=2"), "More")))], [], [])
  const ExampleRows := [ExampleStory1, ExampleMeta1, ExampleSpacer, ExampleStory2, ExampleMeta2, ExampleSpacer,
                        ExampleMore, ExampleSpacer]

  /** The records of the two stories, including the sentinels of the second. */
  lemma ExampleItems()
    ensures ItemOf(ExampleStory1, ExampleMeta1) == Success(Article("1.", "A", "http://a.example", "7 points", "pg"))
    ensures ItemOf(ExampleStory2, ExampleMeta2) == Success(Article("2.", "B", "", NoPoints, UnknownSubmitter))
  {
    assert IsUserHref("user?id=pg") by {
      assert OccursAt("user?id=pg", UserMarker, 0);
      UserHrefIffMarker("user?id=pg");
    }
    assert !IsUserHref("item?id=42") by {
      var h := "item?id=42";
      assert h[2..][..8][0] != UserMarker[0] && !Contains(h[2..], UserMarker);
      assert h[1..][..8][0] != UserMarker[0] && h[1..][1..] == h[2..] && !Contains(h[1..], UserMarker);
      assert h[..8][0] != UserMarker[0];
    }
    assert !IsScoreId("scorex") && IsScoreId("score_42");
  }

  /** The example page parses to exactly the two stories, in order; the "More" pair is skipped. */
  lemma ExamplePage()
    ensures ParsePage(Page([Table([]), Table([]), Table(ExampleRows)])) ==
      Scrape([Article("1.", "A", "http://a.example", "7 points", "pg"),
              Article("2.", "B", "", NoPoints, UnknownSubmitter)], None)
  {
    PairsAt(ExampleRows);
    var pairs := [(ExampleStory1, ExampleMeta1), (ExampleStory2, ExampleMeta2), (ExampleMore, ExampleSpacer)];
    assert Pairs(ExampleRows) == pairs;
    ExampleItems();
    assert pairs[1..] == [(ExampleStory2, ExampleMeta2), (ExampleMore, ExampleSpacer)];
    assert pairs[1..][1..] == [(ExampleMore, ExampleSpacer)];
    assert ScrapePairs(pairs[1..][1..]) == Scrape([], None);
    assert ScrapePairs(pairs[1..]) == Scrape([Article("2.", "B", "", NoPoints, UnknownSubmitter)], None);
    assert ScrapePairs(pairs) == Scrape([Article("1.", "A", "http://a.example", "7 points", "pg"),
                                         Article("2.", "B", "", NoPoints, UnknownSubmitter)], None);
    var page := Page([Table([]), Table([]), Table(ExampleRows)]);
    assert ArticleRows(page) == Success(ExampleRows);
  }
}
