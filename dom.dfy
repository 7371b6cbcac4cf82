/**
 * An abstraction of the parsed HTML document the scraper queries.
 *
 * The scraper only ever asks a handful of questions of the tree: the list of
 * `table` elements in document order, the `tr` rows of one table, whether a row
 * contains a `td` at all, whether it carries a `style` attribute, its `td`
 * cells of class `title` (with their text and first anchor), and the `span`
 * and `a` elements below it in document order. This module keeps exactly that
 * information and nothing else.
 */
module Dom {
  import opened Wrappers

  /** A `span` element: its `id` attribute, if any, and its text. */
  datatype Span = Span(id: Option<string>, text: string)

  /** An `a` element: its `href` attribute, if any, and its text. */
  datatype Anchor = Anchor(href: Option<string>, text: string)

  /** A `td` of class `title`: its text and the first `a` below it, if any. */
  datatype TitleCell = TitleCell(text: string, anchor: Option<Anchor>)

  /**
   * A `tr` element. `titleCells`, `spans` and `anchors` list the matching
   * descendants in document order.
   */
  datatype Row = Row(
    hasTd: bool,
    hasStyle: bool,
    titleCells: seq<TitleCell>,
    spans: seq<Span>,
    anchors: seq<Anchor>)

  /** A `table` element with all the `tr` rows below it, in document order. */
  datatype Table = Table(rows: seq<Row>)

  /** The whole document: every `table` element, in document order. */
  datatype Page = Page(tables: seq<Table>)

  /** `xs[i]` is the first element of `xs` that satisfies `p`. */
  predicate IsFirst<T>(xs: seq<T>, p: T -> bool, i: nat) {
    i < |xs| && p(xs[i]) && forall j :: 0 <= j < i ==> !p(xs[j])
  }

  /**
   * The position of the first element of `xs` that satisfies `p`, as a
   * document-order `find` returns the first match.
   */
  function FindFirst<T>(xs: seq<T>, p: T -> bool): (r: Option<nat>)
    ensures r.Some? ==> IsFirst(xs, p, r.value)
    ensures r.None? <==> forall j :: 0 <= j < |xs| ==> !p(xs[j])
  {
    if xs == [] then None
    else if p(xs[0]) then Some(0)
    else match FindFirst(xs[1..], p)
      case None => None
      case Some(i) => Some(i + 1)
  }
}
