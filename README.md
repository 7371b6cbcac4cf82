# Hacker News front-page scraper, modelled in Dafny

This project models the core of `scraper.py`, a small scraper for the Hacker
News front page. Its `Webscraper` class works in two steps.

- `parse` takes the third `table` of the parsed page. It groups the table's `tr`
  rows in threes: a story row, a metadata row and a spacer. It pairs row `3k`
  with row `3k + 1` and drops the spacer. Pairs whose story row has no `td`, or
  has a `style` attribute (the "More" link row), are skipped.
- `parseItem` builds an `Article(rank, title, link, points, submitter)` from each
  remaining pair and appends it to the `articles` list. A missing `href` gives
  the link `''`. A missing `score_<digits>` span gives the points `"no points"`.
  A missing `user?id=` anchor gives the submitter `"unknown"`.
- `outputTable` and `outputArticle` render the list as an HTML table. The header
  lists every field except `link`. Each body row has the rank, then the title as
  an anchor to the link, then the points and the submitter. Titles longer than 80
  characters are cut to 80 and get `"..."` appended.

The parsed document is abstracted as plain data. Module `Dom` keeps only what the
scraper asks of it: tables, rows, title cells, spans and anchors, in document
order. A document query such as `find` becomes `FindFirst` over a sequence. The
two regular expressions become string predicates in module `Patterns`.

The modules follow the program's structure:

- `Wrappers`: Option and Result.
- `Dom`: the abstract document.
- `Patterns`: `SCORE_REGEX` and `USER_REGEX`.
- `Pairing`: `zip(rows[0::3], rows[1::3])`.
- `Extract`: the `Article` record and the rules of `parse` and `parseItem`, written as functions, with lemmas about them.
- `Render`: the header columns, the title truncation and the cells of a body row.
- `Scraper`: the `Webscraper` class. Its `articles` field is a `seq<Article>` that its methods reassign. Its methods are proved against the functions of `Extract` and `Render`.

The Python exceptions are modelled as a `ParseError` value that a method returns:

- an `IndexError` on `findAll('table')[2]` is `NoArticleTable`;
- an `IndexError` on `titleTDs[0]` or `titleTDs[1]` is `MissingTitleCells`;
- an `AttributeError` when the second title cell has no anchor is `MissingTitleAnchor`.

As in Python, the articles appended before the exception stay in the list.

## Model

| member | source | states |
|---|---|---|
| `Dom.FindFirst` | scraper.py:55-58 | The document-order `find`. It returns the position of an element that satisfies the selector, and no earlier element does. It returns None exactly when no element satisfies it. |
| `Patterns.ContainsHasOccurrence` | scraper.py:21 | When the left-to-right scan for `user?id=` succeeds, the marker occurs at the position it returns. |
| `Patterns.OccurrenceIsContained` | scraper.py:21 | Every occurrence of the marker is found by the scan. |
| `Patterns.ContainsIffOccurs` | scraper.py:21 | The scan succeeds exactly when the pattern occurs at some position, which is what a regular-expression search does. |
| `Patterns.UserHrefIffMarker` | scraper.py:21 | An href matches `user\?id=.*` exactly when it contains `user?id=`. |
| `Patterns.ScoreIdIsRegexMatch` | scraper.py:20 | An id matches `^score_\d+` exactly when `score_` followed by one or more digits is a prefix of it. |
| `Pairing.EveryThirdLength` | scraper.py:42 | `s[start::3]` has `ceil((n - start) / 3)` elements: none when `start >= n`. |
| `Pairing.EveryThirdAt` | scraper.py:42 | Element `k` of `s[start::3]` is `s[start + 3k]`. |
| `Pairing.Zip` | scraper.py:42 | `zip` stops at the shorter input. Pair `k` is the two elements at position `k`. |
| `Pairing.PairsLength` | scraper.py:42 | `n` rows give `(n + 1) / 3` pairs. |
| `Pairing.PairAt` | scraper.py:42 | Pair `k` is exactly rows `3k` and `3k + 1`. |
| `Pairing.PairsAt` | scraper.py:40-42 | `n` rows give `(n + 1) / 3 = min(ceil(n/3), ceil((n-1)/3))` pairs. Pair `k` is exactly rows `3k` and `3k + 1`. |
| `Pairing.SpacersIgnored` | scraper.py:38-42 | Spacer rows `3k + 2` never reach a pair. Row lists that differ only there give the same pairs. |
| `Extract.ItemOf` | scraper.py:49-54 | It succeeds exactly when the story row has two title cells and the second one holds an anchor. Fewer than two title cells is `MissingTitleCells`. The rank is the first title cell's text. The title is the anchor's text. The link is the anchor's href if it has one, otherwise `""`. |
| `Extract.ItemPoints` | scraper.py:55-56 | The points are the text of the first span whose id matches the score pattern, or `"no points"` if no span matches. |
| `Extract.ItemSubmitter` | scraper.py:57-58 | The submitter is the text of the first anchor whose href matches the user pattern, or `"unknown"` if no anchor matches. |
| `Extract.StoriesAreKeptPairs` | scraper.py:43-45 | A pair is kept exactly when it is in the input and its story row has a `td` and no `style`. The filter never adds a pair. |
| `Extract.ScrapeAppend` | scraper.py:43-46 | One loop step after a clean prefix. A skipped pair changes nothing. A kept pair either appends its one record at the end or stops the loop with its error. |
| `Extract.ScrapeStep` | scraper.py:43-46 | The same loop step, stated on the prefix of the first `i` pairs and the prefix of the first `i + 1` pairs. |
| `Extract.ScrapeStopsAtFailure` | scraper.py:43-46 | After an exception no later pair is looked at. |
| `Extract.ScrapePrefixFailure` | scraper.py:43-46 | A failure on a prefix of the pairs is the outcome of the whole list. |
| `Extract.NonStoryContributesNothing` | scraper.py:44-45 | Inserting a pair whose story row has no `td`, or has a `style`, anywhere in the input leaves the outcome unchanged. |
| `Extract.ScrapeFailsIff` | scraper.py:43-52 | The loop completes without an exception exactly when the record of every kept pair can be built. |
| `Extract.ScrapeRecordsAreStories` | scraper.py:43-46 | When the loop completes, it yields exactly one record per kept pair, in row order. Record `k` is the item of the `k`-th kept pair. |
| `Extract.ScrapeFailurePrefix` | scraper.py:43-46 | When an exception stops the loop, it comes from a kept pair whose item fails. The records are those of the clean prefix before that pair. |
| `Extract.ScrapeNeverLacksTable` | scraper.py:49-52 | Building items never raises the table-selection error. |
| `Extract.NoArticleTableIff` | scraper.py:37 | `parse` fails on table selection, having scraped nothing, exactly when the page has fewer than three tables. |
| `Extract.ParsePageRecords` | scraper.py:33-46 | A page that parses cleanly has at least three tables. It yields one record per kept pair of the third table, in row order, and at most `(n + 1) / 3` records. Every kept pair is rows `3j` and `3j + 1` of that table. |
| `Extract.ExampleItems` | scraper.py:49-58 | On a concrete story, the fields are read as stated. A story without href, score span or user link gets `""`, `"no points"` and `"unknown"`. |
| `Extract.ExamplePage` | scraper.py:33-46 | A page with two chrome tables, two stories and a "More" row yields exactly the two records, in order. |
| `Render.ColumnsAreShownFields` | scraper.py:74-76 | The header loop keeps exactly the fields other than `link`. It never adds a column. |
| `Render.HeaderOmitsLink` | scraper.py:74-76 | Over `Article._fields`, the header is exactly `rank, title, points, submitter`, in field order. |
| `Render.DisplayTitle` | scraper.py:92 | A title of at most 80 characters is shown unchanged. A longer one is shown as its first 80 characters followed by `"..."`, 83 characters in all. Either way the result starts with `title[:80]`. |
| `Render.BodyRowUnderHeader` | scraper.py:87-96 | A body row has one cell per header column. Cell `j` shows the field named by column `j`. The title column is the truncated title inside an anchor whose href is exactly the record's link. The other columns are plain text. |
| `Scraper.Webscraper.constructor` | scraper.py:28-31 | A new scraper holds the given parsed page and an empty article list. |
| `Scraper.Webscraper.ParseItem` | scraper.py:49-60 | When the item can be built, exactly one record is appended at the end of `articles` and every earlier entry is kept. When it cannot, the error is returned and `articles` is unchanged. |
| `Scraper.Webscraper.Parse` | scraper.py:33-46 | `articles` becomes its old value followed by the records of the page, and the returned error is the page's failure, if any. |
| `Scraper.Webscraper.OutputTable` | scraper.py:63-96 | The header is exactly `rank, title, points, submitter`. There is one body row per article, in list order, with that article's cells. |
| `Scraper.ParseTwice` | scraper.py:25-46 | Nothing clears `articles`, so parsing the same page twice lists every record twice. |

## Left out

- The HTTP fetch in `__init__` (`requests.get`, `req.close`) is left out: it is network I/O. The constructor takes the already parsed page.
- The internals of the HTML parser (`BeautifulSoup`, `findAll`, `find`, `.text`, `has_attr`) are left out: they are a foreign library. Module `Dom` stands in for them.
  - A tag's `.text` is a given string.
  - `findAll('tr')` is the `rows` of a table.
  - `findAll('td', class_='title')` is a row's `titleCells`.
  - `find('a')` inside the second title cell is that cell's `anchor`.
  - `find('td') is None` is `hasTd` being false.
  - `has_attr('style')` is `hasStyle`.
  - A nested table is counted by `findAll('table')` in document order. Callers of the model must list the tables that way.
- Nothing forces the abstract rows to be consistent. For example, a row with title cells but no `td` can be built. Such rows are skipped like any row without a `td`.
- The markup library calls, the caption, the footer, the stylesheet link, file opening and UTF-8 encoding in `outputTable` are left out: they are output plumbing. Only the header columns and the content of each body cell are modelled.
- The `__main__` driver is left out.
- Scraper.Webscraper.constructor: in the source, `articles` is a class attribute, so all instances share one list. The model gives each instance its own list, which starts empty.
- The source stops with an uncaught exception on a malformed page. After that the driver writes no output file, but the records appended before the exception are still in the in-memory list. The model returns the error and keeps those records, as the code does. It does not model a variant that discards partial results.
- scraper.py has no plain-text dump of the records, so none is modelled.
- The comment at scraper.py:91 says the title is cut "to 50 lines". The code cuts it to 80 characters, and the model follows the code.
- Characters are Dafny `char`s. No Unicode normalisation or encoding is modelled. `\d` is taken to be an ASCII digit, as it is for a Python 2 byte-string pattern.
