# Book Connect catalogue browser — a Dafny model

Book Connect is a single-page book catalogue. The visitor sees a list of book
previews, a page of `BOOKS_PER_PAGE` at a time with a "Show more (n)" button. A
search form narrows the list by title, author and genre. A settings form picks
a day or night theme. Clicking a preview opens an overlay with that book's
details. This project models the script behind the page, `scripts.js`. It covers
the search filter, the pagination counter, the selection of a clicked book, the
theme decision and the drop-down options. The document is replaced by abstract
outputs: the list of previews, the button's number and disabled flag, the
"no results" flag, the detail record, the theme value with its palette, and
the option lists.

Modules, one per component of the script:

- `Catalogue` (catalogue.dfy): book records, the author and genre tables as
  ordered key/name entries, and the preview and detail records the page
  renders. `DisplayName` is what a template shows for `table[key]`.
- `Search` (search.dfy): the filter predicate, `Filter` as its specification,
  and the `search` loop with its inner genre loop, both proved equal to it.
- `Pagination` (pagination.dfy): `Array.prototype.slice`, the button's
  number, and the list after `k` pages.
- `Selection` (selection.dfy): the click-path walk and catalogue lookup of
  `selectedBook`, as functions and as the nested loop with early exits.
- `Theme` (theme.dfy): the `toggleTheme` decision and its palettes.
- `FilterOptions` (filter_options.dfy): the `generateFilter` option list.
- `App` (app.dfy): class `BookConnect`. Its fields are the module-level
  `matches` and `booksDisplayed` plus the document outputs. Its methods are
  `init`, `displayBooks`, `updateUI`, `showResults`, `search`, the "Show more"
  click, `toggleTheme`, `loadSearch` and the list click. `Valid()` is the state
  every handler leaves: the list holds the previews of the first
  `booksDisplayed` matches, the counter has moved by whole pages since the last
  reset, and the button reports what is left.

The inputs the page takes from elsewhere are constructor and method
parameters: the catalogue, the two tables, `BOOKS_PER_PAGE` (positive), the
theme selector's initial value, and whether the system prefers a dark colour
scheme.

Three behaviours of scripts.js that a quick reading might get wrong, all kept
as the code has them:

- Every page adds a full `BOOKS_PER_PAGE` to the counter (scripts.js:64). The
  counter is never clamped, so `booksDisplayed` can pass `|matches|`. The
  list and the label stay right because the slice and the label both clamp.
- `trim()` is used only to test whether the title query is blank
  (scripts.js:265). The substring test uses the query as typed
  (scripts.js:266), so a leading or trailing space must match.
- A tagged element whose id names no book does not end the walk over the
  click path. It leaves the active book empty, and the elements after it are
  still tried, because the loop stops only once a book is active
  (scripts.js:176-187).

## Model

| member | source | states |
|---|---|---|
| `Search.IsJsWhitespace` | scripts.js:265 | the characters `trim()` removes: all 25 ECMAScript WhiteSpace and LineTerminator code points (tab, LF, VT, FF, CR, space, NBSP, U+1680, U+2000-U+200A, U+2028, U+2029, U+202F, U+205F, U+3000, U+FEFF) |
| `Search.TrimStart` | scripts.js:265 | drops leading white space: the rest is a suffix of the input, everything dropped is white space, and it starts with a non-white-space character (or is empty) |
| `Search.TrimEnd` | scripts.js:265 | drops trailing white space: the rest is a prefix of the input, everything dropped is white space, and it ends with a non-white-space character (or is empty) |
| `Search.Trim` | scripts.js:265 | `String.prototype.trim`: no longer than the input, and empty or starting and ending with non-white-space characters (`Search.TrimIsInnerPiece` says which piece it is) |
| `Search.TrimIsInnerPiece` | scripts.js:265 | for every string, `trim()` is the contiguous piece of it after the leading white space, and every character outside that piece is white space |
| `Search.IsBlank` | scripts.js:265 | a string of ECMAScript white space only, the empty string included: the strings whose `trim()` is "" |
| `Search.Lower` | scripts.js:266 | `toLowerCase` on the ASCII letters only: same length, each character mapped by itself, A-Z to a-z, every other character unchanged |
| `Search.Includes` | scripts.js:266 | `String.prototype.includes`: the query occurs as a contiguous piece of the string at some position (the empty query occurs everywhere) |
| `Search.TitleMatch` | scripts.js:265-266 | the title test: the trimmed query is empty, or the lower-cased untrimmed query occurs in the lower-cased title |
| `Search.AuthorMatch` | scripts.js:267 | the author test: the selected author is "any" or equals the book's author key |
| `Search.GenreMatch` | scripts.js:255-262 | the genre test: the selected genre is "any" or is one of the book's genre keys |
| `Search.Matches` | scripts.js:255-268 | a book passes when the title test, the author test ("any" or equal key) and the genre test ("any" or listed) all hold |
| `Search.Filter` | scripts.js:254-271 | the search as a function: the passing books in catalogue order; no longer than the catalogue, and every book it yields is a catalogue book that passes |
| `Search.LowerKeepsBlank` | scripts.js:265-266 | a query is blank iff its lower-cased form is |
| `Search.LowerIdempotent` | scripts.js:266 | lower-casing twice is lower-casing once |
| `Search.TitleMatchIgnoresCase` | scripts.js:265-266 | for all titles and queries, lower-casing the query or the title never changes whether the title test passes |
| `Search.FilterCatalogue` | scripts.js:250-272 | the result of the `for`/`push` loop is exactly `Filter(books, c)` |
| `Search.HasGenre` | scripts.js:255-262 | the inner genre loop with its `break` yields true iff the genre is "any" or listed in the book's genres |
| `Search.FilterMembership` | scripts.js:254-271 | a book is in the result iff it is in the catalogue and passes the title, author and genre tests |
| `Search.FilterIsSubsequence` | scripts.js:254-271 | the result is a subsequence of the catalogue, in catalogue order |
| `Search.FilterAppend` | scripts.js:254-271 | filtering two runs one after the other gives the two results one after the other (stable, per-book filter) |
| `Search.FilterIdempotent` | scripts.js:254-271 | filtering a result again with the same criteria gives it back unchanged |
| `Search.TrimEmptyIffBlank` | scripts.js:265 | `trim()` gives the empty string iff the query consists only of ECMAScript white space |
| `Search.BlankTitleMatchesAll` | scripts.js:265 | a white-space-only title query matches every title |
| `Search.NonBlankTitleIsSubstring` | scripts.js:265-266 | any other title query matches iff the lower-cased untrimmed query occurs in the lower-cased title |
| `Search.LongerQueryMisses` | scripts.js:265-266 | for all titles, a non-blank query longer than the title never matches it, even when the extra characters are white space |
| `Search.UntrimmedQuery` | scripts.js:266 | " foo" does not match the title "Foo": the leading space counts |
| `Search.PartialQueryFinds` | scripts.js:266 | "fO" matches the title "Foo": part of the title, in other letter case |
| `Search.FilterNoCriteria` | scripts.js:255-268 | a blank title with author "any" and genre "any" keeps the whole catalogue |
| `Search.FilterByGenreAndAuthor` | scripts.js:255-267 | with a blank title, a book is kept iff its genres contain the genre key (or it is "any") and its author equals the author key (or it is "any") |
| `Search.GenreScenario` | scripts.js:250-272 | two books, genre "g1": only the book listing "g1" is kept |
| `Pagination.Slice` | scripts.js:38-41 | `slice(start, end)` has `min(end, len) - start` elements (none when start is at or past the end), element k being `s[start + k]` |
| `Pagination.ShowMoreCount` | scripts.js:79-89 | the label number is 0 iff `length - booksDisplayed <= 0`, and otherwise equals that difference |
| `Pagination.Revealed` | scripts.js:38-41 | the list after k pages since the last reset: the pages' slices one after the other |
| `Pagination.AppendPage` | scripts.js:38-41 | the first `n` matches plus the next page is the first `n + BOOKS_PER_PAGE` matches, both cut back to the length |
| `Pagination.RevealedIsPrefix` | scripts.js:38-41 | after k pages the list is exactly the prefix of the matches of length `min(k * BOOKS_PER_PAGE, length)` |
| `Pagination.PastTheEnd` | scripts.js:38-41 | once the counter is at or past the end a page adds nothing and the label number is 0 |
| `Pagination.PagesToExhaust` | scripts.js:38-89 | exactly ceil(length / BOOKS_PER_PAGE) pages show all matches and leave the label at 0; one fewer does not; a further page adds nothing |
| `Pagination.OneByOneScenario` | scripts.js:38-89 | page size 1 and two books: [b0] with one left, then [b0, b1] with none left, then nothing more |
| `Catalogue.DisplayName` | scripts.js:55 | `authors[key]` in a template is the name of the first entry with that key, or "undefined" when there is none |
| `Catalogue.PreviewOf` | scripts.js:42-57 | one preview button: the book's id as its `data-preview` tag, its cover, its title and its author's display name |
| `Catalogue.Previews` | scripts.js:38-59 | one preview per book, in order, preview k being that of book k |
| `Catalogue.DetailOf` | scripts.js:193-205 | the overlay's contents: cover (both images), title, author display name with the publication date, description |
| `Selection.LookupIndex` | scripts.js:181-184 | the inner search stops at the first book whose id equals the tag; no earlier book has it |
| `Selection.Lookup` | scripts.js:181-184 | the first book whose id equals the tag: a catalogue book with that id when found, and none only when no book has it |
| `Selection.Tagged` | scripts.js:178 | an element selects something only when its `data-preview` value is present and not the empty string |
| `Selection.NodeBook` | scripts.js:178-187 | what one path element selects: none unless its tag is present and non-empty, and then the lookup of that tag, a catalogue book with that id |
| `Selection.Walk` | scripts.js:175-189 | the walk of `selectedBook`: an active book is kept as it is, and a book found from an empty start is a catalogue book |
| `Selection.Resolve` | scripts.js:173-189 | the book a click selects: the walk started with no active book, as the list's click handler calls it |
| `Selection.ResolveSelection` | scripts.js:173-189 | the nested loops of `selectedBook` with both `break`s yield exactly `Walk(books, active, path)` |
| `Selection.LookupFirst` | scripts.js:181-184 | the lookup finds nothing iff no book has the id, and otherwise the first book with it |
| `Selection.LookupUnique` | scripts.js:181-184 | with unique ids, looking up a catalogue book's id yields that book |
| `Selection.ResolveStep` | scripts.js:175-189 | the walk yields the first node's book if it resolves, and otherwise walks the rest of the path |
| `Selection.ResolveFirst` | scripts.js:175-189 | the selected book is that of the first node with a non-empty tag that resolves, whatever follows it |
| `Selection.ResolveNone` | scripts.js:175-191 | nothing is selected iff no node resolves: untagged, empty-tagged or unknown ids only, or an empty path |
| `Selection.ResolveSound` | scripts.js:175-189 | a selected book is in the catalogue and its id is the tag of some node of the path |
| `Selection.ClickOnPreview` | scripts.js:175-189 | a click whose first tagged node carries a catalogue book's id (unique ids) selects that book |
| `Selection.ActiveKept` | scripts.js:176 | an active book passed in is kept; the walk stops at once |
| `Theme.ResolveTheme` | scripts.js:140-162 | night iff the system prefers dark and the theme is "night"; the selector is set to that value; night sets ("255, 255, 255", "10, 10, 20"), day the swap |
| `Theme.PaletteSwapped` | scripts.js:149-161 | the two outcomes' palettes are each other's swap and use two different colours |
| `Theme.ThemeConjunction` | scripts.js:142-146 | "night" on a light system and "day" on either system give day; "night" on a dark system gives night |
| `FilterOptions.OptionList` | scripts.js:101-115 | the option list of a table: "any" labelled "All Authors"/"All Genres", then each entry's key and name |
| `FilterOptions.OptionListShape` | scripts.js:101-115 | the option list has one more entry than the table: "any" labelled "All Authors"/"All Genres", then each entry in order |
| `FilterOptions.GenerateFilter` | scripts.js:99-115 | the option-appending loop yields exactly `OptionList(kind, table)` |
| `App.BookConnect.Valid` | scripts.js:22-89 | the page state: `booksDisplayed` is a whole number of pages, the list holds the previews of the first `booksDisplayed` matches (all once past the end), and the label and button report what is left |
| `App.BookConnect.Init` | scripts.js:398-405 | the matches are the catalogue, one page is shown with the counter at `BOOKS_PER_PAGE`, the theme is resolved, both drop-downs are filled, `Valid()` holds |
| `App.BookConnect.DisplayBooks` | scripts.js:33-64 | appends the previews of `list.slice(booksDisplayed, booksDisplayed + BOOKS_PER_PAGE)` and adds a whole `BOOKS_PER_PAGE` to the counter |
| `App.BookConnect.UpdateUI` | scripts.js:74-89 | after the page, the label shows `max(0, length - booksDisplayed)` and the button is disabled iff that difference is `<= 0` |
| `App.BookConnect.ShowResults` | scripts.js:216-237 | the counter is reset before the first page, the matches become the result, the message is shown iff it is empty, `Valid()` holds |
| `App.BookConnect.Search` | scripts.js:250-275 | the matches become `Filter(books, c)`, its first page is shown, and the message is shown iff it is empty |
| `App.BookConnect.ShowMore` | scripts.js:375 | appends exactly the next page of the matches, keeps `Valid()`, and appends nothing once the counter has reached the end |
| `App.BookConnect.ToggleTheme` | scripts.js:140-162 | the selector value and the palette are those of `ResolveTheme` |
| `App.BookConnect.LoadSearch` | scripts.js:131-134 | appends the genre option list and the author option list to their drop-downs |
| `App.BookConnect.SelectBook` | scripts.js:385-389 | the overlay shows the details of the resolved book when one is found; otherwise it is left as it was |

## Left out

- Building and changing the document (elements, templates, fragments, CSS
  classes, scrolling): the model keeps only the values those steps write.
- Event-listener wiring, opening and closing the overlays, focus and form
  parsing: browser input and output. The handlers are the methods of
  `BookConnect`, and the parsed form fields are their parameters.
- The `try`/`catch` blocks that log to the console: no step of the model can
  fail.
- `window.matchMedia`: the system's dark-mode preference is a boolean
  parameter. A missing `matchMedia` is modelled by passing false.
- `new Date(published).getFullYear()`: the detail record keeps the raw
  `published` string instead of the year.
- Unicode case mapping: `Lower` lower-cases the ASCII letters only.
- `Object.entries` order: the tables are ordered entry lists given as
  parameters. JavaScript's rule that integer-like keys come first is not
  modelled, and nothing stops a key from appearing twice.
- `generateFilter` decides its label by comparing the table object with the
  author table (identity). The model takes the kind as an explicit argument.
- The data module (`books`, `authors`, `genres`, `BOOKS_PER_PAGE`) is not part
  of this model. Its contents are parameters.
- Options already in the drop-downs, and the list and message as the page first
  loads them: these come from the HTML, which is not part of this model. The
  model starts them empty or hidden.
