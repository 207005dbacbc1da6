# Leaflet scraper core, modelled in Dafny

This project models the extraction core of a small leaflet scraper, `main.py`.
The scraper reads the leaflet overview page of a discount-flyer site and turns
each `.brochure-thumb` tile into a six-field record:

- `title`;
- `thumbnail`;
- `shop_name`;
- `valid_from`;
- `valid_to`;
- `parsed_time`.

It also models the two date helpers, `parse_dates` and `format_date`.

The modules follow the program:

- `Wrappers` holds `Option` and `Result`.
- `Text` holds the Python string operations the code relies on:
  - `str.split` and `str.replace` with a non-empty separator, and the join that undoes a split (the code itself never calls `str.join`);
  - decimal digits and zero padding.
- `Dates` holds `format_date` and `parse_dates`:
  - `format_date` is `datetime.strptime(s, "%d.%m.%Y")` followed by `strftime("%Y-%m-%d")`. Strptime is modelled by the grammar of its directives (`%d` accepts `3[01]`, `[12]\d`, `0[1-9]`, `[1-9]` or a blank and `[1-9]`; `%m` accepts `1[0-2]`, `0[1-9]` or `[1-9]`; `%Y` accepts four digits), matched against the whole string. The date check is the Gregorian calendar with years 1 to 9999, which is what `datetime` checks.
  - `parse_dates` splits at `" - "`.
- `Validity` holds the two regular expressions of `parse_page` and their leftmost search with `re.search` semantics, plus the three-way branch that picks the validity dates.
- `Scraper` holds a tile's field fallback chains and the record built from one tile.
- `Page` holds the loop of `parse_page` over all tiles.

A tile is the optional texts and attributes its CSS selectors reach. `None`
means the selector found no node. A BeautifulSoup tag is always truthy, so
`x if tag else d` tests only whether the node exists. The run's timestamp
`now` is a parameter.

The code raises `KeyError` for a logo image without `alt`, and that exception
ends `parse_page`. The model returns it as
`Failure(MissingLogoAlt(index of the first such tile))`. The comment at
main.py:64 says that every field the loop cannot find is set to "Unknown". The
`alt` attribute is the one field read by subscript rather than `.get`, so it
is the exception to that comment. The model follows the code.

## Model

| member | source | states |
|---|---|---|
| Text.Split | main.py:119 | `str.split` with a non-empty separator: the parts joined by the separator give back the text, no part contains the separator, there is a single part exactly when the text has no separator, and every cut is at the leftmost occurrence (no occurrence starts inside a part that a separator follows) |
| Text.ReplaceAll | main.py:77 | `str.replace` rejoins the pieces `str.split` cuts: text without the target, or a replacement equal to the target, gives the text back |
| Text.ReplaceAllLength | main.py:77 | `str.replace` replaces every occurrence, not just the first: the length changes by the length difference once per cut |
| Text.ReplaceAllAbsent | main.py:77 | text without the target comes back unchanged |
| Text.ReplaceAllOnce | main.py:77 | a single occurrence with none before or after it is replaced in place, and the text around it is kept |
| Text.PadDecimalValue | main.py:132 | reading a digit string and zero-padding it back to its width gives the same digits |
| Text.DecimalValuePad | main.py:132 | zero-padding a number to a width it fits and reading it back gives the number |
| Dates.ParseDotted | main.py:132 | every string strptime accepts for `%d.%m.%Y` is three fields its directives accept, joined by dots |
| Dates.ParseDottedComplete | main.py:132 | every three well-formed fields joined by dots are accepted and read back as the same fields |
| Dates.ParseDottedFields | main.py:132 | dot-free day and month fields joined by dots are read back exactly when all three fields are well formed |
| Dates.IsoText | main.py:132 | `strftime("%Y-%m-%d")` writes four digits, a hyphen, two digits, a hyphen and two digits |
| Dates.DecodeIsoText | main.py:132 | the `YYYY-MM-DD` text strftime writes reads back as the same date |
| Dates.FormatDate | main.py:129-134 | `format_date` never fails: the result is "Unknown" or a `YYYY-MM-DD` string that names a real Gregorian date |
| Dates.FormatDateDotted | main.py:131-134 | a 10-character `DD.MM.YYYY` token is formatted exactly when it names a real date, and then the result is `YYYY-MM-DD` built from the token's own digits |
| Dates.FormatDateAcceptsRealDate | main.py:132 | a real `DD.MM.YYYY` date becomes `YYYY-MM-DD` built from the same digits |
| Dates.FormatDateRejectsUnrealDate | main.py:131-134 | a `DD.MM.YYYY` token naming no real date, such as day 32, month 13 or year 0000, gives "Unknown" |
| Dates.FormatDateLeapDay | main.py:131-134 | `29.02.YYYY` is accepted exactly when the year is a Gregorian leap year, so 29.02 in a non-leap year gives "Unknown" |
| Dates.FormatDateWellFormed | main.py:132 | any three well-formed fields, one-digit and blank-padded ones included, are formatted as the date they name when that date exists, and as "Unknown" otherwise |
| Dates.FormatDateSingleDigits | main.py:132 | `D.M.YYYY` with one-digit day and month is accepted, and the output pads both to two digits |
| Dates.FormatDateRejectsDotless | main.py:133-134 | text without a dot, the empty string included, gives "Unknown" |
| Dates.FormatDateAccepted | main.py:129-134 | over all strings, `format_date` gives a date exactly when the text is three well-formed fields joined by dots that name a real date, and the date is then that one in ISO form; any other text, one-dot text such as `01.012025` included, gives "Unknown" |
| Dates.FormatDateRejectsMalformed | main.py:133-134 | three dot-free fields, one of which its directive does not accept, give "Unknown" |
| Dates.ParseDates | main.py:117-125 | `parse_dates` yields "Unknown" or an ISO date on each side, and two "Unknown"s when the text holds no `" - "` |
| Dates.ParseDatesOneSeparator | main.py:119-122 | when the text splits into exactly two parts at its leftmost separator, each side goes through `format_date` on its own; `01.01.2025 - - 02.01.2025` splits into `01.01.2025` and `- 02.01.2025` |
| Dates.ParseDatesTwoSeparators | main.py:119-124 | two non-overlapping separators or more give two "Unknown"s |
| Dates.ParseDatesIndependentSides | main.py:120-122 | the sides are independent: a real start date is kept beside an end date the calendar lacks |
| Dates.DottedNoSeparator | main.py:119 | a `DD.MM.YYYY` token cannot hide a `" - "` separator on the left side |
| Validity.WordRunEnd | main.py:89 | the greedy `\w+` run stops at the first non-word character |
| Validity.MatchAt | main.py:88-89 | every group a pattern captures starts a `DD.MM.YYYY` token |
| Validity.Search | main.py:88-89 | `re.search` returns the leftmost position where the pattern matches, and none matches before it |
| Validity.ClassifyValidity | main.py:88-99 | each date is "Unknown" or a `DD.MM.YYYY` token taken from the date text; an end date is set only when a start date is |
| Validity.SingleSearchFindsLeftmostDate | main.py:89 | the single-date pattern matches exactly when the text holds a date token, and its group is the leftmost token, with or without a `von <word> ` lead-in |
| Validity.RangeSearchFindsLeftmostRange | main.py:88 | the range pattern matches exactly when the text holds `A - B`, and it takes the leftmost such occurrence |
| Validity.LeadInHidesNoDate | main.py:89 | no date token starts inside a `von <word> ` lead-in |
| Validity.RangePrecedence | main.py:88-94 | the leftmost `A - B` gives `(A, B)` verbatim, even though the single pattern would also match |
| Validity.SingleDateFallback | main.py:89-97 | with no range, the leftmost date token gives `(token, "Unknown")` |
| Validity.NoDateFound | main.py:98-99 | text without a date token gives `("Unknown", "Unknown")` |
| Validity.ClassifyValidityCases | main.py:93-99 | the end date is set exactly when the text holds a range, and the start date exactly when it holds a date token |
| Validity.LeadInDiscarded | main.py:89-97 | for `von <word> DD.MM.YYYY`, the lead-in is not part of the stored date |
| Validity.RawTokenStored | main.py:94-97 | the stored value is the raw token and not an ISO date: `32.13.2025` is stored as it is |
| Validity.NormalizedValidity | main.py:81-99 | with each token passed through `format_date`, each side is "Unknown" or an ISO date that exists |
| Validity.NormalizeRealToken | main.py:132 | normalising a real-date token rearranges its own digits |
| Validity.NormalizedRange | main.py:88-94 | with normalisation, a leftmost range of real dates comes out as two ISO dates with the same digits |
| Validity.NormalizedRejectsUnrealDate | main.py:95-97 | with normalisation, a lone token naming no real date gives two "Unknown"s |
| Scraper.Title | main.py:68-69 | the title is the strong text when that node exists, even if the text is empty, and "Unknown" otherwise |
| Scraper.Thumbnail | main.py:72-73 | the thumbnail is empty exactly when there is no image or neither `src` nor `data-src` is a non-empty string; a non-empty `src` wins; `data-src` is the fallback |
| Scraper.ShopName | main.py:76-77 | the shop name is missing (a `KeyError`) exactly when the logo node lacks `alt`; with no logo node it is "Unknown" |
| Scraper.DateText | main.py:83-84 | the `hidden-sm` text wins whenever that node exists, then the `visible-sm` text, then "" |
| Scraper.BuildLeaflet | main.py:67-111 | a tile yields a record exactly when it does not raise, and the record carries the run's time |
| Scraper.ShopNameKeepsPlainAlt | main.py:77 | an `alt` without `"Logo "` is the shop name as it is |
| Scraper.ShopNameDropsOneLogo | main.py:77 | a lone `"Logo "` is cut out wherever it stands, not only as a prefix |
| Scraper.ShopNameStripsLeadingLogo | main.py:77 | `"Logo " + shop` gives `shop` |
| Scraper.ShopNameLength | main.py:77 | the shop name is five characters shorter than `alt` per occurrence of `"Logo "` removed |
| Scraper.ShopNameRemovesEveryLogo | main.py:77 | two disjoint occurrences both go |
| Scraper.BareTileDefaults | main.py:68-111 | a tile where no selector finds anything gives `("Unknown", "", "Unknown", "Unknown", "Unknown", now)` |
| Scraper.LeafletProvenance | main.py:68-99 | every field is its default or was read from the tile: the shop name is "Unknown" without a logo node and otherwise the logo's `alt` with every `"Logo "` removed; each date is a `DD.MM.YYYY` token found in the date text |
| Scraper.HiddenSmallShadowsVisible | main.py:83-84 | when a `hidden-sm` node exists, the `visible-sm` node does not affect the record |
| Scraper.EmptyHiddenSmallHidesDates | main.py:83-99 | an empty `hidden-sm` text gives no dates, whatever `visible-sm` holds |
| Scraper.CorrectedLeaflet | main.py:81-111 | the record with normalised dates has each date "Unknown" or a real ISO date, and raises exactly where the record as written does |
| Scraper.CorrectedLeafletDates | main.py:88-111 | when the leftmost range in the date text is two real dates, the normalised record differs from the record as written only in its dates, which are ISO forms of the same digits |
| Page.Collect | main.py:65-113 | the loop's list has one record per tile when it completes, and an error names a tile of the page |
| Page.ParsePage | main.py:57-113 | `parse_page` returns one record per tile, or the error of a tile on the page |
| Page.CollectRecords | main.py:65-111 | the loop completes exactly when every tile yields a record, and its list holds those records in order |
| Page.CollectFirstError | main.py:65-77 | a failed loop names the first tile that raised |
| Page.ConcatExtend | main.py:65-111 | one more turn of the loop commutes with putting an earlier run in front |
| Page.CollectAppend | main.py:65-113 | looping over two runs one after the other gives the concatenated records, or the first error, indexed in the whole page |
| Page.ParsePageRecords | main.py:65-111 | the page parses exactly when no logo lacks `alt`, and then the record at each position is the one built from the tile at that position |
| Page.ParsePageFirstError | main.py:65-77 | a failed page names the first tile whose logo lacks `alt` |
| Page.ParsePageSharedTime | main.py:59-110 | every record carries the single timestamp taken before the loop |
| Page.ParsePageSingle | main.py:65-111 | a one-tile page gives that tile's record, or the error at index 0 |
| Page.ParsePageAppend | main.py:65-113 | parsing a concatenation of tiles is parsing the two runs and joining their results |
| Page.ParsePageRerun | main.py:59-111 | running again at another time gives the same records apart from `parsed_time`, or the same error |
| Page.BuildLeafletRerun | main.py:59-111 | a tile's record depends on the time only through `parsed_time` |

## Left out

- `fetch_page` and its HTTP session are left out because they are network I/O.
- `save_to_json` and `run` are left out because they are file I/O, JSON serialisation and printing.
- BeautifulSoup parsing and CSS selector matching are left out, together with the whitespace stripping of `get_text(strip=True)`.
  - A tile is the already-extracted, already-stripped texts and attributes.
  - The list of tiles is the document order of `soup.select(".brochure-thumb")`.
- `datetime.now()` becomes the parameter `now`. Its formatting with `"%Y-%m-%d %H:%M:%S"` is not modelled, because the timestamp is passed through unchanged.
- `\d` and `\w` are modelled as their ASCII classes. In Python 3 they also match other Unicode digits and letters.
- Dates.FormatDate: for years 1 to 999 the model writes `%Y` zero-padded to four digits. Python's `strftime` pads or not depending on the platform's C library, so the ISO shape is promised for those years only on platforms that pad.
- The dict records of the source are the `Leaflet` datatype, and key order is not modelled.

## Findings

| source | as written | input that shows it | evidently intended | confidence | as-written member | corrected member |
|---|---|---|---|---|---|---|
| main.py:81-97 | the matched `DD.MM.YYYY` tokens are stored as they are, because `format_date` is never called on them, although the comment at line 81 says the dates are formatted with it | date text `01.01.2025` gives `valid_from = "01.01.2025"`, and `32.13.2025` is stored although no such date exists | each token goes through `format_date`, giving `2025-01-01`, and `"Unknown"` for `32.13.2025` | medium; not executed | Validity.RawTokenStored | Validity.NormalizedValidity |

`Scraper.CorrectedLeaflet` builds the corrected record from
`Validity.NormalizedValidity`. The page loop `Page.ParsePage` keeps the
behaviour as written.
