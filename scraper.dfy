/**
 * The `Webscraper` class of scraper.py: it holds the parsed page and the list
 * of articles that `parse` and `parseItem` append to in place, and renders the
 * list as the cells of an HTML table.
 */
module Scraper {
  import opened Wrappers
  import opened Dom
  import opened Pairing
  import opened Extract
  import opened Render

  /** The content of the HTML table `outputTable` writes: header columns and body rows. */
  datatype Output = Output(header: seq<string>, body: seq<seq<Cell>>)

  class Webscraper {
    /** The parsed front page (`self.soup`). */
    const soup: Page
    /** The scraped articles, in the order they were appended (`self.articles`). */
    var articles: seq<Article>

    /** `__init__` once the page has been fetched and parsed: the document is given. */
    constructor (page: Page)
      ensures soup == page && articles == []
    {
      soup := page;
      articles := [];
    }

    /**
     * `parseItem`: build the record of one story and append it at the end of
     * `articles`, leaving every earlier entry as it was. A missing title cell
     * or title anchor is the exception the Python code raises; nothing is
     * appended then.
     */
    method ParseItem(article: Row, meta: Row) returns (failure: Option<ParseError>)
      modifies this`articles
      ensures match ItemOf(article, meta)
        case Success(a) => failure == None && articles == old(articles) + [a]
        case Failure(e) => failure == Some(e) && articles == old(articles)
    {
      var titleTDs := article.titleCells;
      if |titleTDs| < 2 {
        return Some(MissingTitleCells);
      }
      var articleRank := titleTDs[0].text;
      var found := titleTDs[1].anchor;
      if found.None? {
        return Some(MissingTitleAnchor);
      }
      var articleAnchor := found.value;
      var articleLink := if articleAnchor.href.Some? then articleAnchor.href.value else "";
      var articleTitle := articleAnchor.text;
      var scoreSpan := FindFirst(meta.spans, IsScoreSpan);
      var articleScore := if scoreSpan.Some? then meta.spans[scoreSpan.value].text else NoPoints;
      var userAnchor := FindFirst(meta.anchors, IsUserAnchor);
      var articleSubmitter := if userAnchor.Some? then meta.anchors[userAnchor.value].text else UnknownSubmitter;
      articles := articles + [Article(articleRank, articleTitle, articleLink, articleScore, articleSubmitter)];
      failure := None;
    }

    /**
     * `parse`: pair the rows of the third table, skip the pairs whose story
     * row has no `td` or has a `style` attribute, and append one record per
     * remaining pair, in row order. An exception stops the loop and leaves
     * the records appended before it in place.
     */
    method Parse() returns (failure: Option<ParseError>)
      modifies this`articles
      ensures articles == old(articles) + ParsePage(soup).records
      ensures failure == ParsePage(soup).failure
    {
      var tables := soup.tables;
      if |tables| < 3 {
        return Some(NoArticleTable);
      }
      var newsRows := tables[2].rows;
      var articleMetaPairs := Pairs(newsRows);
      var i := 0;
      while i < |articleMetaPairs|
        invariant 0 <= i <= |articleMetaPairs|
        invariant ScrapePairs(articleMetaPairs[..i]).failure == None
        invariant articles == old(articles) + ScrapePairs(articleMetaPairs[..i]).records
      {
        var (article, meta) := articleMetaPairs[i];
        ScrapeStep(articleMetaPairs, i);
        if !(!article.hasTd || article.hasStyle) {
          failure := ParseItem(article, meta);
          if failure.Some? {
            ScrapePrefixFailure(articleMetaPairs, i + 1);
            return;
          }
        }
        i := i + 1;
      }
      assert articleMetaPairs[..i] == articleMetaPairs;
      failure := None;
    }

    /**
     * `outputTable` and `outputArticle` without the markup: the header names
     * every field but `link`, and there is one body row per article, in list
     * order, with the cells of `BodyRow`.
     */
    method OutputTable() returns (table: Output)
      ensures table.header == ["rank", "title", "points", "submitter"]
      ensures |table.body| == |articles|
      ensures forall k :: 0 <= k < |articles| ==> table.body[k] == BodyRow(articles[k])
    {
      var header := [];
      for c := 0 to |Fields|
        invariant header == Columns(Fields[..c])
      {
        assert Fields[..c + 1][..c] == Fields[..c];
        if Fields[c] != "link" {
          header := header + [Fields[c]];
        }
      }
      assert Fields[..|Fields|] == Fields;
      HeaderOmitsLink();
      var body := [];
      for k := 0 to |articles|
        invariant |body| == k
        invariant forall j :: 0 <= j < k ==> body[j] == BodyRow(articles[j])
      {
        body := body + [BodyRow(articles[k])];
      }
      table := Output(header, body);
    }
  }

  /**
   * Nothing empties `articles` between calls, so parsing the same page twice
   * lists every record twice.
   */
  method ParseTwice(page: Page) returns (listed: seq<Article>)
    requires ParsePage(page).failure == None
    ensures listed == ParsePage(page).records + ParsePage(page).records
  {
    var scraper := new Webscraper(page);
    var first := scraper.Parse();
    var second := scraper.Parse();
    listed := scraper.articles;
  }
}
