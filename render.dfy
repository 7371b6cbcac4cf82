/**
 * What `outputTable` and `outputArticle` put into the HTML table: the header
 * columns and, per article, the content of the body row's cells. The markup
 * itself (tags, styling, caption, footer, the file) is not modelled.
 */
module Render {
  import opened Extract

  /** `Article._fields`, in declaration order. */
  const Fields: seq<string> := ["rank", "title", "link", "points", "submitter"]

  const TitleLimit: nat := 80
  const Ellipsis: string := "..."

  /** A field gets a header column unless it is `link`. */
  predicate IsShown(column: string) {
    column != "link"
  }

  /** The header loop: the fields that get a column, in field order. */
  function Columns(fields: seq<string>): seq<string>
  {
    if fields == [] then []
    else Columns(fields[..|fields| - 1]) + (if IsShown(fields[|fields| - 1]) then [fields[|fields| - 1]] else [])
  }

  /** Column filtering keeps every field except `link`, never reorders and never invents a column. */
  lemma {:induction false} ColumnsAreShownFields(fields: seq<string>)
    ensures forall c :: c in Columns(fields) <==> c in fields && IsShown(c)
    ensures |Columns(fields)| <= |fields|
  {
    if fields != [] {
      var init := fields[..|fields| - 1];
      ColumnsAreShownFields(init);
      assert fields == init + [fields[|fields| - 1]];
    }
  }

  /** The header of the scraped table: rank, title, points, submitter. */
  lemma HeaderOmitsLink()
    ensures Columns(Fields) == ["rank", "title", "points", "submitter"]
    ensures "link" !in Columns(Fields)
  {
    var f1, f2, f3, f4 := Fields[..1], Fields[..2], Fields[..3], Fields[..4];
    assert f1[..0] == [] && f2[..1] == f1 && f3[..2] == f2 && f4[..3] == f3 && Fields[..4] == f4;
    assert Columns(f1) == ["rank"];
    assert Columns(f2) == ["rank", "title"];
    assert Columns(f3) == ["rank", "title"];
    assert Columns(f4) == ["rank", "title", "points"];
  }

  /** Python's `s[:n]`. */
  function Take(s: string, n: nat): string {
    if |s| <= n then s else s[..n]
  }

  /** Python's `s[n:]`. */
  function Drop(s: string, n: nat): string {
    if |s| <= n then [] else s[n..]
  }

  /** `title[:80] + (title[80:] and '...')`: the ellipsis only when text was cut off. */
  function DisplayTitle(title: string): (r: string)
    ensures |title| <= TitleLimit ==> r == title
    ensures |title| > TitleLimit ==> |r| == TitleLimit + |Ellipsis| && r == title[..TitleLimit] + Ellipsis
    ensures |r| <= TitleLimit + |Ellipsis|
    ensures var n := if |title| < TitleLimit then |title| else TitleLimit;
      n <= |r| && r[..n] == title[..n]
  {
    Take(title, TitleLimit) + (if Drop(title, TitleLimit) == [] then [] else Ellipsis)
  }

  /** A table cell: plain text, or an anchor with visible text and an `href`. */
  datatype Cell = Text(text: string) | Link(text: string, href: string)

  /** The cells `outputArticle` writes for one article, in order. */
  function BodyRow(a: Article): seq<Cell>
  {
    [Text(a.rank), Link(DisplayTitle(a.title), a.link), Text(a.points), Text(a.submitter)]
  }

  /** The value of a named field of an article, as `getattr` on the named tuple. */
  function FieldValue(a: Article, column: string): string
  {
    match column
    case "rank" => a.rank
    case "title" => a.title
    case "link" => a.link
    case "points" => a.points
    case "submitter" => a.submitter
    case _ => ""
  }

  /**
   * Cell `j` of a body row sits under header column `j` and shows that field:
   * the title column truncated and as an anchor whose `href` is exactly the
   * record's link, every other column as plain text.
   */
  lemma BodyRowUnderHeader(a: Article)
    ensures |BodyRow(a)| == |Columns(Fields)|
    ensures forall j :: 0 <= j < |BodyRow(a)| && Columns(Fields)[j] != "title" ==>
      BodyRow(a)[j] == Text(FieldValue(a, Columns(Fields)[j]))
    ensures forall j :: 0 <= j < |BodyRow(a)| && Columns(Fields)[j] == "title" ==>
      BodyRow(a)[j] == Link(DisplayTitle(FieldValue(a, "title")), FieldValue(a, "link"))
  {
    HeaderOmitsLink();
  }
}
